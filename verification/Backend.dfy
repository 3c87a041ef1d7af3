/**
 The connection pool, the send thread and the recycle thread as objects that update their lists,
 counters and semaphores in place, proved against the steps of `Delivery`.  The pool keeps its
 connection objects in one allocation (net/tiny_tcpconnectionpool.cxx:8-19); they are named by their
 index in it.
 */
module BackendObjects {
  import opened Codec
  import opened Delivery
  import opened DeliveryProofs
  import opened PoolProofs
  import SendPath
  import Sweeping

  lemma RecyItemSweep(w: Sweeping.Sweeper<Due>)
    requires Sweeping.Enabled(w, Sweeping.Keep)
    ensures w.pc.At? && w.pc.pos < |w.queue|
    ensures Sweeping.Next(w, Sweeping.Keep) == w.(sem := w.sem + 1, pc := Sweeping.At(w.pc.pos + 1))
    ensures Sweeping.Next(w, Sweeping.Erase(false)) == w.(queue := w.queue[..w.pc.pos] + w.queue[w.pc.pos + 1..])
  {
  }

  class Backend {
    // The pool.
    var peers: seq<Peer>
    var free: seq<nat>
    var checkouts: nat   // history: numbers the checkouts, as recorded in the objects
    // The send thread.
    var msgQueue: seq<Msg>
    var msgQueueSize: nat
    var msgSem: nat
    // The recycle thread.
    var recyQueue: seq<Due>
    var crashed: bool
    var recyQueueSize: nat
    var recySem: nat

    /** The abstract state, with the program counters of the two workers and the history. */
    ghost var state: Sys

    ghost predicate Valid()
      reads this
    {
      && peers == state.peers && free == state.free && checkouts == |state.owners|
      && msgQueue == state.send.queue && msgQueueSize == state.send.size && msgSem == state.send.sem
      && recyQueue == state.recy.queue && recyQueueSize == state.recy.size && recySem == state.recy.sem
      && crashed == state.crashed
    }

    /** Fills the free list with the objects of the pool, one by one. */
    constructor (size: nat, ghost answer: Rpt -> Rpt)
      requires Framable(answer)
      ensures Valid() && state == Start(size, answer) && Good(state)
    {
      var objects: seq<Peer>, list: seq<nat> := [], [];
      var i := 0;
      while i < size
        invariant 0 <= i <= size
        invariant objects == seq(i, _ => Peer(IDLE, 0, false, 0, 0, false)) && list == seq(i, k => k)
      {
        objects := objects + [Peer(IDLE, 0, false, 0, 0, false)];
        list := list + [i];
        i := i + 1;
      }
      peers, free, checkouts := objects, list, 0;
      msgQueue, msgQueueSize, msgSem := [], 0, 0;
      recyQueue, recyQueueSize, recySem, crashed := [], 0, 0, false;
      state := Start(size, answer);
      StartGood(size, answer);
    }

    /** -1 stands for the null pointer: no object is free. */
    method GetOneTcpConnection() returns (c: int)
      requires Valid() && Good(state) && !crashed
      modifies this
      ensures Valid() && state == Next(old(state), Accept)
      ensures c == if old(free) == [] then -1 else old(free)[0]
      ensures c != -1 ==> 0 <= c < |peers| && peers[c].conn == SendPath.OPENED && peers[c].curSeq % 2 == 1
    {
      hide Good;
      if free == [] {
        return -1;
      }
      GoodPool(state);
      FreeIsClosed(state);
      c := free[0];
      free := free[1..];
      peers := peers[c := Peer(SendPath.OPENED, peers[c].curSeq + 1, true, peers[c].since, checkouts, false)];
      checkouts := checkouts + 1;
      state := DoAccept(state);
    }

    /** `pushMsg`; the lock must be free. */
    method PushMsg(m: Msg)
      requires Valid() && m in state.tasks && !state.send.pc.At? && !crashed
      modifies this
      ensures Valid() && state == Next(old(state), PushReply(m))
    {
      msgQueue := msgQueue + [m];
      msgQueueSize := msgQueueSize + 1;
      msgSem := msgSem + 1;
      state := Next(state, PushReply(m));
    }

    /** The test of the stamp of the reply at position `pos`: a stale one is erased. */
    method TestOne(pos: nat) returns (matches: bool)
      requires Valid() && state.send.pc == Sweeping.At(pos) && Enabled(state, TestItem)
      modifies this
      ensures Valid() && state == Next(old(state), TestItem) && state.send.pc == Sweeping.At(pos)
      ensures matches == state.held
      ensures |msgQueue| == if matches then |old(msgQueue)| else |old(msgQueue)| - 1
    {
      var m := msgQueue[pos];
      matches := peers[m.conn].curSeq == m.stamp;
      if !matches {
        msgQueue := msgQueue[..pos] + msgQueue[pos + 1..];
        msgQueueSize := msgQueueSize - 1;
      }
      state := Next(state, TestItem);
    }

    /** The hand-over of the reply at position `pos`, whatever its object is by now: left in place if its
        connection refuses, erased otherwise.  Returns the next position. */
    method HandOne(pos: nat, outs: seq<SendPath.Outcome>) returns (next: nat)
      requires Valid() && state.send.pc == Sweeping.At(pos) && Enabled(state, HandItem(outs))
      modifies this
      ensures Valid() && state == Next(old(state), HandItem(outs)) && state.send.pc == Sweeping.At(next)
      ensures |msgQueue| - next == |old(msgQueue)| - pos - 1
    {
      hide Frame, SendPath.Send, SendPath.ISend, Next;
      NextIsHand(state, outs);
      next := pos;
      var m := msgQueue[pos];
      var frame := Frame(m.rpt);
      var (conn, ret) := SendPath.Send(peers[m.conn].conn, frame, outs);
      if ret == -1 {
        next := pos + 1;
        msgSem := msgSem + 1;
      } else {
        if peers[m.conn].conn.open {
          var error := SendPath.ISend(|frame|, outs).ending == SendPath.Error;
          peers := peers[m.conn := peers[m.conn].(conn := conn, failed := peers[m.conn].failed || error)];
        }
        msgQueue := msgQueue[..pos] + msgQueue[pos + 1..];
        msgQueueSize := msgQueueSize - 1;
      }
      state := Next(state, HandItem(outs));
    }

    /** The elements of a send sweep that nothing interrupts, a test and a hand-over for every element that was
        queued. */
    method SendLoop(outs: seq<seq<SendPath.Outcome>>)
      requires Valid() && Good(state) && !state.held && !crashed && state.send.pc == Sweeping.At(0) && |outs| == |msgQueue|
      modifies this
      ensures Valid() && Good(state) && !crashed && state.send.pc == Sweeping.At(|msgQueue|)
      ensures state == Run(old(state), SendItems(outs))
    {
      hide Good, Run, Next, Enabled;
      var pos: nat, i: nat := 0, 0;
      assert outs[0..] == outs;
      while pos < |msgQueue|
        invariant Valid() && Good(state) && state.send.pc == Sweeping.At(pos) && pos <= |msgQueue|
        invariant !state.held && !crashed && i <= |outs| && |outs| - i == |msgQueue| - pos
        invariant Run(state, SendItems(outs[i..])) == Run(old(state), SendItems(outs))
        decreases |outs| - i
      {
        NextItem(state, outs, i);
        var matches := TestOne(pos);
        if matches {
          pos := HandOne(pos, outs[i]);
        }
        i := i + 1;
      }
      assert outs[i..] == [];
      RunNone(state);
    }

    /** A whole sweep of the send thread under its lock. */
    method SendSweep(outs: seq<seq<SendPath.Outcome>>)
      requires Valid() && Good(state) && !state.held && !crashed && state.send.pc.Aimed? && |outs| == |msgQueue|
      modifies this
      ensures Valid() && Good(state) && state.send.pc == Sweeping.Waiting
      ensures state == Run(old(state), [SendMove(Sweeping.Lock)] + SendItems(outs) + [SendMove(Sweeping.Unlock)])
    {
      hide Good, Run;
      ghost var lock, unlock := SendMove(Sweeping.Lock), SendMove(Sweeping.Unlock);
      RunLoop(state, lock, SendItems(outs), unlock);
      NextGood(state, lock);
      SendAims(state);
      state := Next(state, lock);
      SendLoop(outs);
      NextGood(state, unlock);
      state := Next(state, unlock);
    }

    /** `recycle`: the connection is queued for closing, again if it is queued already, and no longer read. */
    method PushConnection(c: nat, now: int)
      requires Valid() && Enabled(state, Recycle(c, now))
      modifies this
      ensures Valid() && state == Next(old(state), Recycle(c, now))
    {
      recyQueue := recyQueue + [Due(c, peers[c].checkout)];
      recyQueueSize := recyQueueSize + 1;
      recySem := recySem + 1;
      peers := peers[c := peers[c].(readEnabled := false, since := now)];
      state := Next(state, Recycle(c, now));
    }

    /** One element of the recycle sweep; `putOneTcpConnection` resets the object and appends it to the free
        list.  The size counter is left alone.  An object that is free already has no pool to be returned to. */
    method RecyOne(pos: nat, now: int) returns (next: nat)
      requires Valid() && state.recy.pc == Sweeping.At(pos) && Enabled(state, RecyItem(now))
      modifies this
      ensures Valid() && state == DoRecyItem(old(state), now)
      ensures !crashed ==> state.recy.pc == Sweeping.At(next) && |recyQueue| - next == |old(recyQueue)| - pos - 1
    {
      hide SendPath.Send, HoldsReplyFor, Sweeping.Next;
      RecyItemSweep(state.recy);
      next := pos;
      var c := recyQueue[pos].conn;
      var p := peers[c];
      if now - p.since < 10_000 {
        next := pos + 1;
        recySem := recySem + 1;
      } else if !p.conn.open {
        crashed := true;
      } else {
        peers := peers[c := p.(conn := p.conn.(open := false, eventMode := false, writeEnabled := false),
                               curSeq := p.curSeq + 1)];
        free := free + [c];
        recyQueue := recyQueue[..pos] + recyQueue[pos + 1..];
      }
      state := DoRecyItem(state, now);
    }

    /** The elements of a recycle sweep, one step for every element that was queued, unless the program crashes;
        `nows` are the clock readings. */
    method RecyLoop(nows: seq<int>)
      requires Valid() && Good(state) && !crashed && state.recy.pc.At? && state.recy.pc.pos + |nows| == |recyQueue|
      modifies this
      ensures Valid() && Good(state) && (!crashed ==> state.recy.pc == Sweeping.At(|recyQueue|))
      ensures state == Run(old(state), RecyItems(nows))
    {
      hide Good, Run, DoRecyItem, Enabled, Next;
      var pos: nat, i: nat := |recyQueue| - |nows|, 0;
      assert nows[0..] == nows;
      while pos < |recyQueue| && !crashed
        invariant Valid() && Good(state) && i <= |nows|
        invariant !crashed ==> state.recy.pc == Sweeping.At(pos) && pos <= |recyQueue| && |nows| - i == |recyQueue| - pos
        invariant Run(state, RecyItems(nows[i..])) == Run(old(state), RecyItems(nows))
        decreases |nows| - i
      {
        NextRecyItem(state, nows, i);
        pos := RecyOne(pos, nows[i]);
        i := i + 1;
      }
      if crashed {
        RunCrashed(state, RecyItems(nows[i..]));
      } else {
        assert RecyItems(nows[i..]) == [];
        RunNone(state);
      }
    }

    /** A whole sweep of the recycle thread under its lock; it sweeps nothing if the list was empty when the
        thread took its positions. */
    method RecySweep(nows: seq<int>)
      requires Valid() && Good(state) && !crashed && state.recy.pc.Aimed?
      requires |nows| == if state.recy.pc.empty then 0 else |recyQueue|
      modifies this
      ensures Valid() && Good(state) && (!crashed ==> state.recy.pc == Sweeping.Waiting)
      ensures state == Run(old(state), [RecyMove(Sweeping.Lock)] + RecyItems(nows) + [RecyMove(Sweeping.Unlock)])
    {
      hide Good, Run;
      ghost var lock, unlock := RecyMove(Sweeping.Lock), RecyMove(Sweeping.Unlock);
      RunLoop(state, lock, RecyItems(nows), unlock);
      NextGood(state, lock);
      state := Next(state, lock);
      RecyLoop(nows);
      NextGood(state, unlock);
      state := Next(state, unlock);
    }

    /** The steps outside the sweeps: a push on either list, and what a worker does around its lock. */
    method Perform(step: Step)
      requires Valid() && Enabled(state, step)
      requires step.PushReply? || step.Recycle? || step.SendMove? || step.RecyMove?
      modifies this
      ensures Valid() && state == Next(old(state), step)
    {
      if step.PushReply? {
        PushMsg(step.m);
      } else if step.Recycle? {
        PushConnection(step.c, step.now);
      } else if step.SendMove? {
        if step.move.Wait? {
          msgSem := msgSem - 1;
        }
        state := Next(state, step);
      } else {
        if step.recyMove.Wait? {
          recySem := recySem - 1;
        }
        state := Next(state, step);
      }
    }
  }

  /** A test and a hand-over for each element; after a test that fails the hand-over is no step. */
  function SendItems(outs: seq<seq<SendPath.Outcome>>): seq<Step> {
    if outs == [] then [] else [TestItem, HandItem(outs[0])] + SendItems(outs[1..])
  }

  function RecyItems(nows: seq<int>): seq<Step> {
    seq(|nows|, i requires 0 <= i < |nows| => RecyItem(nows[i]))
  }

  lemma RunLoop(s: Sys, first: Step, steps: seq<Step>, last: Step)
    ensures Run(s, [first] + steps + [last]) == Next(Run(Next(s, first), steps), last)
  {
    hide Next;
    RunAppend(s, [first] + steps, [last]);
    RunCons(s, first, steps);
    RunCons(Run(Next(s, first), steps), last, []);
    assert [last] + [] == [last];
  }

  lemma GoodPool(s: Sys)
    requires Good(s)
    ensures PoolOk(s.peers, s.free)
  {
  }

  lemma NextIsHand(s: Sys, outs: seq<SendPath.Outcome>)
    requires Enabled(s, HandItem(outs))
    ensures AtItem(s) && Next(s, HandItem(outs)) == DoHandItem(s, outs)
  {
  }

  /** The send thread never takes the positions of an empty list. */
  lemma SendAims(s: Sys)
    requires Good(s) && s.send.pc.Aimed?
    ensures !s.send.pc.empty
  {
  }

  lemma TestItemEnabled(s: Sys)
    requires Good(s) && !s.held && !s.crashed && s.send.pc.At? && s.send.pc.pos < |s.send.queue|
    ensures Enabled(s, TestItem)
  {
    assert Stamped(s.send.queue[s.send.pc.pos], s.peers, s.born);
  }

  lemma RecyItemEnabled(s: Sys, now: int)
    requires Good(s) && !s.crashed && s.recy.pc.At? && s.recy.pc.pos < |s.recy.queue|
    ensures Enabled(s, RecyItem(now))
  {
    assert DueOk(s.recy.queue[s.recy.pc.pos], s.owners);
  }

  lemma {:induction false} RunCrashed(s: Sys, steps: seq<Step>)
    requires s.crashed
    ensures Run(s, steps) == s
    decreases |steps|
  {
    if steps != [] {
      RunCrashed(s, steps[1..]);
    }
  }

  /** What a test leaves: nothing held if it fails, and then no hand-over. */
  lemma AfterTest(s: Sys, outs: seq<SendPath.Outcome>)
    requires Enabled(s, TestItem)
    ensures var t := Next(s, TestItem);
            && (t.held ==> Enabled(t, HandItem(outs)) && !Next(t, HandItem(outs)).held)
            && (!t.held ==> Next(t, HandItem(outs)) == t)
            && t.crashed == s.crashed && Next(t, HandItem(outs)).crashed == s.crashed
  {
    hide SendPath.Send, SendPath.ISend;
  }

  /** The next element of a send sweep can be tested and handed over; these are the next steps of the run. */
  lemma NextItem(s: Sys, outs: seq<seq<SendPath.Outcome>>, i: nat)
    requires Good(s) && !s.held && !s.crashed && i < |outs| && s.send.pc.At? && s.send.pc.pos < |s.send.queue|
    ensures Enabled(s, TestItem)
    ensures var t := Next(s, TestItem); var u := Next(t, HandItem(outs[i]));
            && Good(t) && (t.held ==> Enabled(t, HandItem(outs[i])))
            && Good(u) && !u.held && !u.crashed && (!t.held ==> u == t)
            && Run(s, SendItems(outs[i..])) == Run(u, SendItems(outs[i + 1..]))
  {
    hide Good, Next, Run, Enabled;
    TestItemEnabled(s);
    AfterTest(s, outs[i]);
    var t := Next(s, TestItem);
    NextGood(s, TestItem);
    NextGood(t, HandItem(outs[i]));
    var rest := SendItems(outs[i + 1..]);
    assert outs[i..][1..] == outs[i + 1..];
    RunCons(s, TestItem, [HandItem(outs[i])] + rest);
    RunCons(t, HandItem(outs[i]), rest);
    assert SendItems(outs[i..]) == [TestItem] + ([HandItem(outs[i])] + rest);
  }

  /** The next element of a recycle sweep can be taken, and taking it is the next step of the run. */
  lemma NextRecyItem(s: Sys, nows: seq<int>, i: nat)
    requires Good(s) && !s.crashed && i < |nows| && s.recy.pc.At? && s.recy.pc.pos < |s.recy.queue|
    ensures Enabled(s, RecyItem(nows[i])) && Good(DoRecyItem(s, nows[i]))
    ensures Run(s, RecyItems(nows[i..])) == Run(DoRecyItem(s, nows[i]), RecyItems(nows[i + 1..]))
  {
    hide Good, Run;
    RecyItemEnabled(s, nows[i]);
    NextGood(s, RecyItem(nows[i]));
    RunCons(s, RecyItem(nows[i]), RecyItems(nows[i + 1..]));
    assert RecyItems(nows[i..]) == [RecyItem(nows[i])] + RecyItems(nows[i + 1..]);
  }
}
