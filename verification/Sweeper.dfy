/**
 The discipline shared by the send thread and the recycle thread (net/tiny_sendthread.cxx:31-122,
 net/tiny_recythread.cxx:21-107): producers append to a list and post a semaphore under a lock; the
 worker waits on the semaphore, and if the size counter is not zero sweeps the whole list under the
 lock, posting once more for every element it leaves in place.  It takes the list positions before the
 lock; if the list is empty at that moment, the round sweeps nothing, whatever is pushed before the lock.
 */
module Sweeping {

  /** `Ready`: the counter was seen above zero.  `Aimed`: the list positions are taken, the lock is not held
      yet.  `At(pos)`: the lock is held and the first `pos` elements have been left in place. */
  datatype Pc = Waiting | Woken | Ready | Aimed(empty: bool) | At(pos: nat)

  datatype Sweeper<T> = Sweeper(queue: seq<T>, size: nat, sem: nat, pc: Pc)

  datatype Move<T> = Push(x: T) | Wait | Test | Aim | Lock | Keep | Erase(counted: bool) | Unlock

  /** A push needs the lock.  `Erase(counted)`: the send thread lowers the size counter when it erases
      an element; the recycle thread does not. */
  predicate Enabled<T>(w: Sweeper<T>, move: Move<T>) {
    match move
    case Push(_) => !w.pc.At?
    case Wait => w.pc == Waiting && w.sem > 0
    case Test => w.pc == Woken
    case Aim => w.pc == Ready
    case Lock => w.pc.Aimed?
    case Keep => w.pc.At? && w.pc.pos < |w.queue|
    case Erase(counted) => w.pc.At? && w.pc.pos < |w.queue| && (counted ==> w.size > 0)
    case Unlock => w.pc.At? && w.pc.pos == |w.queue|
  }

  function Next<T>(w: Sweeper<T>, move: Move<T>): Sweeper<T>
    requires Enabled(w, move)
  {
    match move
    case Push(x) => w.(queue := w.queue + [x], size := w.size + 1, sem := w.sem + 1)
    case Wait => w.(sem := w.sem - 1, pc := Woken)
    case Test => w.(pc := if w.size > 0 then Ready else Waiting)
    case Aim => w.(pc := Aimed(|w.queue| == 0))
    case Lock => w.(pc := At(if w.pc.empty then |w.queue| else 0))
    case Keep => w.(pc := At(w.pc.pos + 1), sem := w.sem + 1)
    case Erase(counted) =>
      w.(queue := w.queue[..w.pc.pos] + w.queue[w.pc.pos + 1..], size := if counted then w.size - 1 else w.size)
    case Unlock => w.(pc := Waiting)
  }

  /** No lost wakeup: whenever the worker is about to wait, the semaphore covers the list. */
  ghost predicate Awake<T>(w: Sweeper<T>) {
    && w.size >= |w.queue|
    && match w.pc
       case Waiting => w.sem >= |w.queue|
       case Woken => w.sem + 1 >= |w.queue|
       case Ready => true
       case Aimed(empty) => empty ==> w.sem >= |w.queue|
       case At(pos) => pos <= |w.queue| && w.sem >= pos
  }

  /** A counter that is lowered with every element counts the list, and then no round sweeps nothing. */
  ghost predicate Counted<T>(w: Sweeper<T>) {
    && w.size == |w.queue|
    && (w.pc == Ready ==> |w.queue| > 0)
    && (w.pc.Aimed? ==> !w.pc.empty)
  }

  lemma NextAwake<T>(w: Sweeper<T>, move: Move<T>)
    requires Awake(w) && Enabled(w, move)
    requires move.Erase? && move.counted ==> w.size == |w.queue|
    ensures Awake(Next(w, move))
    ensures Counted(w) && move != Erase(false) ==> Counted(Next(w, move))
  {
  }

  // ---- Posts and waits over a run ----

  predicate Legal<T>(w: Sweeper<T>, moves: seq<Move<T>>)
    decreases |moves|
  {
    moves != [] ==> Enabled(w, moves[0]) && Legal(Next(w, moves[0]), moves[1..])
  }

  function Run<T>(w: Sweeper<T>, moves: seq<Move<T>>): Sweeper<T>
    requires Legal(w, moves)
    decreases |moves|
  {
    if moves == [] then w else Run(Next(w, moves[0]), moves[1..])
  }

  function CountOf<T>(moves: seq<Move<T>>, f: Move<T> -> bool): nat {
    if moves == [] then 0 else (if f(moves[0]) then 1 else 0) + CountOf(moves[1..], f)
  }

  /** Over any run: every push and every element left in place posts once, every wait takes one; the list has grown
      by the pushes and shrunk by the erasures, and the counter likewise, by those that lower it. */
  lemma {:induction false} RunConserves<T>(w: Sweeper<T>, moves: seq<Move<T>>)
    requires Legal(w, moves)
    ensures var v := Run(w, moves);
            var pushes := CountOf(moves, (m: Move<T>) => m.Push?);
            && v.sem + CountOf(moves, (m: Move<T>) => m.Wait?) == w.sem + pushes + CountOf(moves, (m: Move<T>) => m.Keep?)
            && |v.queue| + CountOf(moves, (m: Move<T>) => m.Erase?) == |w.queue| + pushes
            && v.size + CountOf(moves, (m: Move<T>) => m.Erase? && m.counted) == w.size + pushes
    decreases |moves|
  {
    if moves != [] {
      RunConserves(Next(w, moves[0]), moves[1..]);
    }
  }

  // ---- A round that starts with an empty list ----

  function Pushes<T>(xs: seq<T>): seq<Move<T>> {
    if xs == [] then [] else [Push(xs[0])] + Pushes(xs[1..])
  }

  lemma {:induction false} AimedLocks<T>(w: Sweeper<T>, xs: seq<T>)
    requires w.pc.Aimed?
    ensures Legal(w, Pushes(xs) + [Lock])
    ensures var v := Run(w, Pushes(xs) + [Lock]);
            v.queue == w.queue + xs && v.pc == At(if w.pc.empty then |w.queue| + |xs| else 0)
    decreases |xs|
  {
    var moves := Pushes(xs) + [Lock];
    if xs == [] {
      assert moves == [Lock] && moves[1..] == [];
      assert w.queue + [] == w.queue;
    } else {
      assert moves[0] == Push(xs[0]) && moves[1..] == Pushes(xs[1..]) + [Lock];
      AimedLocks(Next(w, Push(xs[0])), xs[1..]);
      assert w.queue + [xs[0]] + xs[1..] == w.queue + xs;
    }
  }

  /** Whatever is pushed between the taking of the positions and the lock: the round sweeps the whole list, what was
      pushed included, exactly if the list was not empty when they were taken; otherwise it sweeps nothing. */
  lemma RoundSweepsExact<T>(w: Sweeper<T>, xs: seq<T>)
    requires w.pc == Ready
    ensures Legal(w, [Aim] + (Pushes(xs) + [Lock]))
    ensures var v := Run(w, [Aim] + (Pushes(xs) + [Lock]));
            v.queue == w.queue + xs && v.pc == At(if w.queue == [] then |xs| else 0)
  {
    var rest: seq<Move<T>> := Pushes(xs) + [Lock];
    assert ([Aim] + rest)[1..] == rest;
    AimedLocks(Next(w, Aim), xs);
  }
}
