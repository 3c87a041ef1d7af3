/** Checked-out and free connection objects, and what the recycle thread closes, over every run. */
module PoolProofs {
  import opened Codec
  import opened Delivery
  import SendPath
  import Stream

  /** What one element of the recycle sweep does to the pool, the queue and the closes. */
  lemma RecyItemEffect(s: Sys, now: int)
    requires Enabled(s, RecyItem(now))
    ensures var pos := s.recy.pc.pos; var due, t := s.recy.queue[pos], DoRecyItem(s, now);
            var c := due.conn; var p := s.peers[c];
            && |t.peers| == |s.peers| && t.owners == s.owners && t.doubled == s.doubled
            && (if now - p.since >= 10_000 && p.conn.open then
                  && t.peers == s.peers[c := t.peers[c]] && t.free == s.free + [c]
                  && !t.peers[c].conn.open && t.peers[c].curSeq == p.curSeq + 1 && t.peers[c].checkout == p.checkout
                  && t.closes == s.closes + [Close(due.checkout, p.checkout)] && !t.crashed
                  && t.recy.queue == s.recy.queue[..pos] + s.recy.queue[pos + 1..]
                else
                  && t.peers == s.peers && t.free == s.free && t.closes == s.closes && t.recy.queue == s.recy.queue
                  && (t.crashed <==> now - p.since >= 10_000))
  {
    hide HoldsReplyFor, SendPath.Send;
  }

  // ---- The partition ----

  lemma AcceptPool(s: Sys)
    requires PoolOk(s.peers, s.free) && Enabled(s, Accept)
    ensures PoolOk(DoAccept(s).peers, DoAccept(s).free)
  {
    var t := DoAccept(s);
    var c := s.free[0];
    assert forall i | 0 <= i < |t.free| :: t.free[i] == s.free[i + 1];
    forall d | 0 <= d < |t.peers|
      ensures d in t.free <==> !t.peers[d].conn.open
    {
      if d != c && d in s.free {
        var i :| 0 <= i < |s.free| && s.free[i] == d;
        assert t.free[i - 1] == d;
      }
    }
  }

  /** Returning an object keeps the free list free of duplicates exactly if the object is checked out. */
  lemma ReturnExact(peers: seq<Peer>, free: seq<nat>, c: nat)
    requires PoolOk(peers, free) && c < |peers|
    ensures NoDup(free + [c]) <==> peers[c].conn.open
  {
    var more := free + [c];
    if c in free {
      var i :| 0 <= i < |free| && free[i] == c;
      assert more[i] == more[|free|];
    }
  }

  lemma RecyItemPool(s: Sys, now: int)
    requires PoolOk(s.peers, s.free) && Enabled(s, RecyItem(now))
    ensures PoolOk(DoRecyItem(s, now).peers, DoRecyItem(s, now).free)
  {
    hide DoRecyItem;
    RecyItemEffect(s, now);
  }

  /** A step that leaves `open` and the sequence numbers alone leaves the pool alone. */
  lemma SamePool(s: Sys, t: Sys)
    requires PoolOk(s.peers, s.free) && |t.peers| == |s.peers| && t.free == s.free
    requires forall c | 0 <= c < |s.peers| ::
               t.peers[c].conn.open == s.peers[c].conn.open && t.peers[c].curSeq == s.peers[c].curSeq
    ensures PoolOk(t.peers, t.free)
  {
  }

  lemma ItemPool(s: Sys, step: Step)
    requires PoolOk(s.peers, s.free) && Enabled(s, step) && (step.TestItem? || step.HandItem?)
    ensures PoolOk(Next(s, step).peers, Next(s, step).free)
  {
    hide PoolOk;
    SamePool(s, Next(s, step));
  }

  lemma NextPool(s: Sys, step: Step)
    requires PoolOk(s.peers, s.free)
    ensures PoolOk(Next(s, step).peers, Next(s, step).free)
  {
    hide PoolOk;
    if Enabled(s, step) {
      match step
      case Accept => AcceptPool(s);
      case TestItem => ItemPool(s, step);
      case HandItem(_) => ItemPool(s, step);
      case WriteEvent(c, outs) => SamePool(s, Next(s, step));
      case Recycle(c, now) => SamePool(s, Next(s, step));
      case RecyItem(now) => RecyItemPool(s, now);
      case _ =>
    }
  }

  // ---- Closes ----

  /** Objects stay open or closed, and in their checkouts. */
  predicate SameCheckouts(s: Sys, t: Sys) {
    && |t.peers| == |s.peers| && t.owners == s.owners
    && forall c | 0 <= c < |s.peers| ::
         t.peers[c].conn.open == s.peers[c].conn.open && t.peers[c].checkout == s.peers[c].checkout
  }

  lemma SameCloses(s: Sys, t: Sys)
    requires ClosesOk(s) && SameCheckouts(s, t) && t.closes == s.closes
    requires t.recy.queue == s.recy.queue
    ensures ClosesOk(t)
  {
    assert forall k | 0 <= k < |s.owners| :: Current(t, k) == Current(s, k);
  }

  lemma RecycleCloses(s: Sys, c: nat, now: int)
    requires ClosesOk(s) && Enabled(s, Recycle(c, now))
    ensures ClosesOk(Next(s, Recycle(c, now)))
  {
    var t := Next(s, Recycle(c, now));
    assert forall k | 0 <= k < |s.owners| :: Current(t, k) == Current(s, k);
  }

  lemma AcceptCloses(s: Sys)
    requires PoolOk(s.peers, s.free) && ClosesOk(s) && Enabled(s, Accept)
    ensures ClosesOk(DoAccept(s))
  {
    var t, c := DoAccept(s), s.free[0];
    assert c in s.free;
    assert forall k | 0 <= k < |s.owners| :: t.owners[k] == s.owners[k] && Current(t, k) == Current(s, k);
    assert Current(t, |s.owners|);
  }

  lemma EndedSnoc(closes: seq<Close>, last: Close, k: nat)
    ensures Ended(closes + [last], k) <==> Ended(closes, k) || last.met == k
  {
    var more := closes + [last];
    assert more[|closes|] == last;
    if Ended(closes, k) {
      var i :| 0 <= i < |closes| && closes[i].met == k;
      assert more[i].met == k;
    }
  }

  lemma OwnSnoc(closes: seq<Close>, last: Close)
    requires forall i | 0 <= i < |closes| :: OwnIfFirst(closes, i)
    requires last.met == last.asked <==> !Ended(closes, last.asked)
    ensures forall i | 0 <= i <= |closes| :: OwnIfFirst(closes + [last], i)
  {
    hide Ended;
    var more := closes + [last];
    forall i | 0 <= i <= |closes|
      ensures OwnIfFirst(more, i)
    {
      assert more[..i] == closes[..i];
      assert closes[..|closes|] == closes;
      if i < |closes| {
        assert OwnIfFirst(closes, i);
      }
    }
  }

  lemma RecyItemCloses(s: Sys, now: int)
    requires ClosesOk(s) && Enabled(s, RecyItem(now))
    ensures ClosesOk(DoRecyItem(s, now))
  {
    hide Ended, OwnIfFirst, DoRecyItem;
    RecyItemEffect(s, now);
    var pos := s.recy.pc.pos;
    var due, t := s.recy.queue[pos], DoRecyItem(s, now);
    var p := s.peers[due.conn];
    if now - p.since >= 10_000 && p.conn.open {
      var last := Close(due.checkout, p.checkout);
      assert DueOk(due, s.owners);
      assert Current(s, due.checkout) <==> p.checkout == due.checkout;
      OwnSnoc(s.closes, last);
      assert forall i | 0 <= i < |t.recy.queue| :: t.recy.queue[i] == s.recy.queue[if i < pos then i else i + 1];
      forall k | 0 <= k < |s.owners|
        ensures Ended(t.closes, k) <==> !Current(t, k)
      {
        EndedSnoc(s.closes, last, k);
      }
    } else {
      SameCloses(s, t);
    }
  }

  lemma NextCloses(s: Sys, step: Step)
    requires PoolOk(s.peers, s.free) && ClosesOk(s)
    ensures ClosesOk(Next(s, step))
  {
    hide PoolOk, ClosesOk;
    if Enabled(s, step) {
      match step
      case Accept => AcceptCloses(s);
      case Recycle(c, now) => RecycleCloses(s, c, now);
      case RecyItem(now) => RecyItemCloses(s, now);
      case _ =>
        KeepsCheckouts(s, step);
        SameCloses(s, Next(s, step));
    }
  }

  lemma KeepsCheckouts(s: Sys, step: Step)
    requires Enabled(s, step) && !step.Accept? && !step.Recycle? && !step.RecyItem?
    ensures SameCheckouts(s, Next(s, step))
    ensures Next(s, step).closes == s.closes && Next(s, step).recy.queue == s.recy.queue
    ensures Next(s, step).crashed == s.crashed && Next(s, step).doubled == s.doubled
    ensures forall c | 0 <= c < |s.peers| :: Next(s, step).peers[c].readEnabled == s.peers[c].readEnabled
  {
    hide Frame, Stream.Feed, SendPath.ISend, DoHandItem;
    if step.HandItem? {
      HandKeepsCheckouts(s, step.outs);
    }
  }

  lemma HandKeepsCheckouts(s: Sys, outs: seq<SendPath.Outcome>)
    requires Enabled(s, HandItem(outs))
    ensures var t := DoHandItem(s, outs);
            && SameCheckouts(s, t) && t.closes == s.closes && t.recy == s.recy
            && t.crashed == s.crashed && t.doubled == s.doubled
            && forall c | 0 <= c < |s.peers| :: t.peers[c].readEnabled == s.peers[c].readEnabled
  {
    hide Frame, SendPath.ISend;
  }

  // ---- The queue, while no connection is recycled twice ----

  lemma SameQueue(s: Sys, t: Sys)
    requires QueueOk(s) && SameCheckouts(s, t) && t.closes == s.closes && t.recy.queue == s.recy.queue && t.crashed == s.crashed
    requires forall c | 0 <= c < |s.peers| :: t.peers[c].readEnabled == s.peers[c].readEnabled
    ensures QueueOk(t)
  {
    assert forall i | 0 <= i < |s.recy.queue| :: InPlace(s.recy.queue[i], s.peers);
  }

  lemma QueuedSnoc(queue: seq<Due>, last: Due, c: nat)
    ensures Queued(queue + [last], c) <==> Queued(queue, c) || last.conn == c
  {
    var more := queue + [last];
    assert more[|queue|] == last;
    if Queued(queue, c) {
      var i :| 0 <= i < |queue| && queue[i].conn == c;
      assert more[i].conn == c;
    }
  }

  lemma RecycleQueue(s: Sys, c: nat, now: int)
    requires QueueOk(s) && Enabled(s, Recycle(c, now)) && !Queued(s.recy.queue, c)
    ensures QueueOk(Next(s, Recycle(c, now)))
  {
    var t := Next(s, Recycle(c, now));
    forall i | 0 <= i < |t.recy.queue|
      ensures InPlace(t.recy.queue[i], t.peers)
    {
      if i < |s.recy.queue| {
        assert InPlace(s.recy.queue[i], s.peers);
      }
    }
    forall d | 0 <= d < |t.peers|
      ensures Queued(t.recy.queue, d) <==> t.peers[d].conn.open && !t.peers[d].readEnabled
    {
      QueuedSnoc(s.recy.queue, Due(c, s.peers[c].checkout), d);
    }
  }

  lemma AcceptQueue(s: Sys)
    requires PoolOk(s.peers, s.free) && QueueOk(s) && Enabled(s, Accept)
    ensures QueueOk(DoAccept(s))
  {
    var t, c := DoAccept(s), s.free[0];
    assert c in s.free && !Queued(s.recy.queue, c);
    forall i | 0 <= i < |t.recy.queue|
      ensures InPlace(t.recy.queue[i], t.peers)
    {
      assert InPlace(s.recy.queue[i], s.peers);
    }
  }

  lemma QueuedRest(queue: seq<Due>, pos: nat, c: nat)
    requires pos < |queue| && forall i, j | 0 <= i < j < |queue| :: queue[i].conn != queue[j].conn
    ensures Queued(queue[..pos] + queue[pos + 1..], c) <==> Queued(queue, c) && queue[pos].conn != c
  {
    var rest := queue[..pos] + queue[pos + 1..];
    assert forall i | 0 <= i < |rest| :: rest[i] == queue[if i < pos then i else i + 1];
    if Queued(queue, c) && queue[pos].conn != c {
      var i :| 0 <= i < |queue| && queue[i].conn == c;
      assert rest[if i < pos then i else i - 1].conn == c;
    }
  }

  lemma RecyItemQueue(s: Sys, now: int)
    requires QueueOk(s) && Enabled(s, RecyItem(now))
    ensures QueueOk(DoRecyItem(s, now))
  {
    hide Queued, DoRecyItem;
    RecyItemEffect(s, now);
    var pos := s.recy.pc.pos;
    var due, t := s.recy.queue[pos], DoRecyItem(s, now);
    AtIsQueued(s.recy.queue, pos);
    assert InPlace(due, s.peers);
    if now - s.peers[due.conn].since >= 10_000 {
      assert forall i | 0 <= i < |t.recy.queue| :: t.recy.queue[i] == s.recy.queue[if i < pos then i else i + 1];
      forall i | 0 <= i < |t.recy.queue|
        ensures InPlace(t.recy.queue[i], t.peers)
      {
        assert InPlace(s.recy.queue[if i < pos then i else i + 1], s.peers);
      }
      forall c | 0 <= c < |t.peers|
        ensures Queued(t.recy.queue, c) <==> t.peers[c].conn.open && !t.peers[c].readEnabled
      {
        QueuedRest(s.recy.queue, pos, c);
      }
    } else {
      SameQueue(s, t);
    }
  }

  lemma AtIsQueued(queue: seq<Due>, pos: nat)
    requires pos < |queue|
    ensures Queued(queue, queue[pos].conn)
  {
  }

  lemma NextQueue(s: Sys, step: Step)
    requires PoolOk(s.peers, s.free) && QueueOk(s) && !Next(s, step).doubled
    ensures QueueOk(Next(s, step))
  {
    hide PoolOk, QueueOk, Queued;
    if Enabled(s, step) {
      match step
      case Accept => AcceptQueue(s);
      case Recycle(c, now) => RecycleQueue(s, c, now);
      case RecyItem(now) => RecyItemQueue(s, now);
      case _ =>
        KeepsCheckouts(s, step);
        SameQueue(s, Next(s, step));
    }
  }

  // ---- Runs ----

  lemma RunNone(s: Sys)
    ensures Run(s, []) == s
  {
  }

  lemma RunCons(s: Sys, step: Step, steps: seq<Step>)
    ensures Run(s, [step] + steps) == Run(Next(s, step), steps)
  {
  }

  lemma {:induction false} RunAppend(s: Sys, xs: seq<Step>, ys: seq<Step>)
    ensures Run(s, xs + ys) == Run(Run(s, xs), ys)
    decreases |xs|
  {
    hide Next;
    if xs == [] {
      assert xs + ys == ys;
    } else {
      RunAppend(Next(s, xs[0]), xs[1..], ys);
      assert xs + ys == [xs[0]] + (xs[1..] + ys);
    }
  }

  lemma NextDoubled(s: Sys, step: Step)
    ensures s.doubled ==> Next(s, step).doubled
  {
  }

  lemma {:induction false} RunDoubled(s: Sys, steps: seq<Step>)
    ensures s.doubled ==> Run(s, steps).doubled
    decreases |steps|
  {
    hide Next;
    if steps != [] {
      NextDoubled(s, steps[0]);
      RunDoubled(Next(s, steps[0]), steps[1..]);
    }
  }

  lemma {:induction false} RunPool(s: Sys, steps: seq<Step>)
    requires PoolOk(s.peers, s.free) && ClosesOk(s)
    ensures PoolOk(Run(s, steps).peers, Run(s, steps).free) && ClosesOk(Run(s, steps))
    decreases |steps|
  {
    hide PoolOk, ClosesOk, Next;
    if steps != [] {
      NextPool(s, steps[0]);
      NextCloses(s, steps[0]);
      RunPool(Next(s, steps[0]), steps[1..]);
    }
  }

  lemma {:induction false} RunQueue(s: Sys, steps: seq<Step>)
    requires PoolOk(s.peers, s.free) && QueueOk(s) && !Run(s, steps).doubled
    ensures QueueOk(Run(s, steps))
    decreases |steps|
  {
    hide PoolOk, QueueOk, Next;
    if steps != [] {
      RunDoubled(Next(s, steps[0]), steps[1..]);
      NextPool(s, steps[0]);
      NextQueue(s, steps[0]);
      RunQueue(Next(s, steps[0]), steps[1..]);
    }
  }

  lemma StartPool(size: nat, answer: Rpt -> Rpt)
    ensures PoolOk(Start(size, answer).peers, Start(size, answer).free)
    ensures ClosesOk(Start(size, answer)) && QueueOk(Start(size, answer))
  {
    forall c | 0 <= c < size
      ensures c in Start(size, answer).free
    {
      assert Start(size, answer).free[c] == c;
    }
  }

  /** In every run, whatever is recycled how often: free and checked-out objects partition the pool, none is free
      twice, and the numbers are odd exactly while checked out. */
  lemma PoolAlwaysKept(size: nat, answer: Rpt -> Rpt, steps: seq<Step>)
    ensures PoolOk(Run(Start(size, answer), steps).peers, Run(Start(size, answer), steps).free)
  {
    StartPool(size, answer);
    RunPool(Start(size, answer), steps);
  }

  /** In every run: a close ends the checkout in which its `recycle` was called if and only if no earlier close has
      ended that checkout; and a checkout has been ended by a close if and only if it is not in progress. */
  lemma CloseExact(size: nat, answer: Rpt -> Rpt, steps: seq<Step>)
    ensures var s := Run(Start(size, answer), steps);
            && (forall i | 0 <= i < |s.closes| ::
                  s.closes[i].met == s.closes[i].asked <==> !Ended(s.closes[..i], s.closes[i].asked))
            && (forall k | 0 <= k < |s.owners| :: Ended(s.closes, k) <==> !Current(s, k))
  {
    StartPool(size, answer);
    RunPool(Start(size, answer), steps);
    var s := Run(Start(size, answer), steps);
    forall i | 0 <= i < |s.closes|
      ensures s.closes[i].met == s.closes[i].asked <==> !Ended(s.closes[..i], s.closes[i].asked)
    {
      assert OwnIfFirst(s.closes, i);
    }
  }

  /** In every run in which `recycle` is never called for a connection already queued: every close meets an open
      object, in the checkout in which its `recycle` was called. */
  lemma ClosesTheirOwn(size: nat, answer: Rpt -> Rpt, steps: seq<Step>)
    requires !Run(Start(size, answer), steps).doubled
    ensures var s := Run(Start(size, answer), steps);
            !s.crashed && forall i | 0 <= i < |s.closes| :: s.closes[i].met == s.closes[i].asked
    ensures QueueOk(Run(Start(size, answer), steps))
  {
    StartPool(size, answer);
    RunQueue(Start(size, answer), steps);
  }

  /** The same for one close: it ends the checkout of its `recycle` if that is in progress; otherwise it ends
      another checkout of the object, or, if the object is free, the program crashes. */
  lemma OneCloseExact(s: Sys, now: int)
    requires ClosesOk(s) && Enabled(s, RecyItem(now))
    requires now - s.peers[s.recy.queue[s.recy.pc.pos].conn].since >= 10_000
    ensures var due, t := s.recy.queue[s.recy.pc.pos], DoRecyItem(s, now);
            && (t.crashed <==> !s.peers[due.conn].conn.open)
            && (!t.crashed ==> exists met :: t.closes == s.closes + [Close(due.checkout, met)]
                                          && (met == due.checkout <==> Current(s, due.checkout)) && Current(s, met))
  {
    var due, t := s.recy.queue[s.recy.pc.pos], DoRecyItem(s, now);
    assert DueOk(due, s.owners);
    if !t.crashed {
      assert Current(s, s.peers[due.conn].checkout);
      assert t.closes == s.closes + [Close(due.checkout, s.peers[due.conn].checkout)];
    }
  }
}
