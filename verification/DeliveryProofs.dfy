/** What every step of the system keeps, and what follows for the two ends of a connection. */
module DeliveryProofs {
  import opened Bytes
  import opened Codec
  import opened Stream
  import opened Delivery
  import opened PoolProofs
  import opened RequestProofs
  import SendPath
  import Sweeping

  // ---- Stamps ----

  lemma FreeIsClosed(s: Sys)
    requires PoolOk(s.peers, s.free) && s.free != [] && !s.crashed
    ensures Enabled(s, Accept) && !s.peers[s.free[0]].conn.open && s.peers[s.free[0]].curSeq % 2 == 0
  {
    assert s.free[0] in s.free;
  }

  lemma AcceptBorn(s: Sys)
    requires PoolOk(s.peers, s.free) && BornOk(s.peers, s.born, |s.owners|) && Enabled(s, Accept)
    ensures var t := DoAccept(s);
            && BornOk(t.peers, t.born, |t.owners|)
            && forall k | k in s.born :: k in t.born && t.born[k] == s.born[k]
  {
    hide PoolOk;
    FreeIsClosed(s);
    var c := s.free[0];
    assert (c, s.peers[c].curSeq + 1) !in s.born;
  }

  /** Objects may be closed and move on; those that stay open stay in their checkout. */
  lemma SameBorn(s: Sys, t: Sys)
    requires BornOk(s.peers, s.born, |s.owners|) && StayPut(s, t)
    ensures BornOk(t.peers, t.born, |t.owners|)
  {
  }

  /** No step but `Accept` opens an object or changes its checkout. */
  lemma SamePeers(s: Sys, step: Step)
    requires Enabled(s, step) && !step.Accept?
    ensures StayPut(s, Next(s, step))
  {
    hide SendPath.Send, SendPath.HandleWrite, SendPath.ISend, Frame, Feed, DoHandItem, DoRecyItem;
    match step
    case HandItem(outs) => HandPeers(s, outs);
    case RecyItem(now) => RecyPeers(s, now);
    case WriteEvent(c, outs) => SendPath.HandledWrite(s.peers[c].conn, outs);
    case _ =>
  }

  lemma RecyPeers(s: Sys, now: int)
    requires Enabled(s, RecyItem(now))
    ensures StayPut(s, DoRecyItem(s, now))
  {
  }

  lemma HandPeers(s: Sys, outs: seq<SendPath.Outcome>)
    requires Enabled(s, HandItem(outs))
    ensures StayPut(s, DoHandItem(s, outs))
  {
    hide SendPath.ISend, Frame;
  }

  predicate StayPut(s: Sys, t: Sys) {
    && |t.peers| == |s.peers| && t.born == s.born && t.owners == s.owners
    && forall c | 0 <= c < |s.peers| ::
         && s.peers[c].curSeq <= t.peers[c].curSeq
         && (t.peers[c].conn.open ==>
               s.peers[c].conn.open && t.peers[c].curSeq == s.peers[c].curSeq && t.peers[c].checkout == s.peers[c].checkout)
  }

  lemma NoStep(s: Sys, step: Step)
    requires !Enabled(s, step)
    ensures Next(s, step) == s
  {
  }

  lemma NextBorn(s: Sys, step: Step)
    requires PoolOk(s.peers, s.free) && BornOk(s.peers, s.born, |s.owners|)
    ensures BornOk(Next(s, step).peers, Next(s, step).born, |Next(s, step).owners|)
    ensures |Next(s, step).peers| == |s.peers|
    ensures forall k | k in s.born :: k in Next(s, step).born && Next(s, step).born[k] == s.born[k]
  {
    hide PoolOk, BornOk, SendPath.Send, SendPath.HandleWrite, DoReceive, DoHandItem;
    if Enabled(s, step) {
      if step.Accept? {
        AcceptBorn(s);
      } else {
        SamePeers(s, step);
        SameBorn(s, Next(s, step));
      }
    }
  }

  lemma KeepStamps(s: Sys, t: Sys)
    requires StampsOk(s) && BornOk(t.peers, t.born, |t.owners|) && |t.peers| == |s.peers|
    requires forall k | k in s.born :: k in t.born && t.born[k] == s.born[k]
    requires forall m | m in t.tasks :: m in s.tasks || Stamped(m, t.peers, t.born)
    requires forall m | m in t.send.queue :: m in s.send.queue || m in s.tasks
    ensures StampsOk(t)
  {
    forall i | 0 <= i < |t.send.queue|
      ensures Stamped(t.send.queue[i], t.peers, t.born)
    {
      assert t.send.queue[i] in t.send.queue;
    }
  }

  /** Messages come into the send queue only from the thread pool. */
  lemma NextQueues(s: Sys, step: Step)
    ensures forall m | m in Next(s, step).send.queue :: m in s.send.queue || m in s.tasks
    ensures forall m | m in Next(s, step).tasks :: m in s.tasks || step.Receive?
  {
  }

  lemma NextStamps(s: Sys, step: Step)
    requires PoolOk(s.peers, s.free) && StampsOk(s) && Framable(s.answer)
    ensures StampsOk(Next(s, step))
  {
    hide PoolOk, BornOk, Stamped, Next;
    NextBorn(s, step);
    NextQueues(s, step);
    if step.Receive? {
      ReceiveStamps(s, step.c, step.batch);
    } else {
      KeepStamps(s, Next(s, step));
    }
  }

  lemma ReceiveStamps(s: Sys, c: nat, batch: seq<Byte>)
    requires StampsOk(s) && Framable(s.answer)
    ensures StampsOk(Next(s, Receive(c, batch)))
  {
    hide Feed;
    KeepStamps(s, Next(s, Receive(c, batch)));
  }

  /** A reply whose stamp matches is in the hands of the checkout that received the request. */
  lemma MatchMeansSameCheckout(s: Sys, m: Msg)
    requires PoolOk(s.peers, s.free) && BornOk(s.peers, s.born, |s.owners|) && Stamped(m, s.peers, s.born)
    requires s.peers[m.conn].curSeq == m.stamp
    ensures s.peers[m.conn].conn.open && s.peers[m.conn].checkout == m.origin
  {
  }

  // ---- The reply between its test and its hand-over ----

  lemma TestHeld(s: Sys)
    requires PoolOk(s.peers, s.free) && StampsOk(s) && Enabled(s, TestItem)
    ensures HeldOk(DoTestItem(s))
  {
    var m := s.send.queue[s.send.pc.pos];
    assert Stamped(m, s.peers, s.born);
    if s.peers[m.conn].curSeq == m.stamp {
      MatchMeansSameCheckout(s, m);
    }
  }

  /** The object of a held reply may be given to another client; that checkout is a new one. */
  lemma AcceptHeld(s: Sys)
    requires PoolOk(s.peers, s.free) && StampsOk(s) && HeldOk(s) && Enabled(s, Accept)
    ensures HeldOk(DoAccept(s))
  {
    hide PoolOk;
    FreeIsClosed(s);
    if s.held {
      var m := s.send.queue[s.send.pc.pos];
      assert Stamped(m, s.peers, s.born);
      assert m.origin < |s.owners|;
    }
  }

  lemma RecyItemHeld(s: Sys, now: int)
    requires HeldOk(s) && Enabled(s, RecyItem(now))
    ensures HeldOk(DoRecyItem(s, now))
  {
  }

  /** While a reply is held, the send thread is at its element and nothing is pushed. */
  lemma HeldStays(s: Sys, step: Step)
    requires HeldOk(s) && s.held && Enabled(s, step)
    ensures !step.PushReply? && !step.SendMove? && !step.TestItem?
  {
  }

  lemma NextHeld(s: Sys, step: Step)
    requires PoolOk(s.peers, s.free) && StampsOk(s) && HeldOk(s)
    ensures HeldOk(Next(s, step))
  {
    if Enabled(s, step) {
      match step
      case Accept => AcceptHeld(s);
      case TestItem => TestHeld(s);
      case RecyItem(now) => RecyItemHeld(s, now);
      case _ =>
        hide PoolOk, StampsOk;
        OtherHeld(s, step);
    }
  }

  lemma OtherHeld(s: Sys, step: Step)
    requires HeldOk(s) && Enabled(s, step) && !step.Accept? && !step.TestItem? && !step.RecyItem?
    ensures HeldOk(Next(s, step))
  {
    if s.held {
      HeldStays(s, step);
    }
  }

  /** At the hand-over of a tested reply its object is in the checkout that received the request if and only
      if it has not been closed since the test. */
  lemma HeldExact(s: Sys)
    requires Good(s) && s.held
    ensures AtItem(s)
    ensures var m := s.send.queue[s.send.pc.pos];
            !s.late <==> s.peers[m.conn].conn.open && s.peers[m.conn].checkout == m.origin
  {
  }

  // ---- Streams ----

  lemma GivenSnoc(handed: seq<Hand>, h: Hand, k: nat)
    ensures Given(handed + [h], k) == if h.checkout == k then Given(handed, k) + [h] else Given(handed, k)
  {
    assert (handed + [h])[..|handed|] == handed;
  }

  lemma {:induction false} GivenNone(handed: seq<Hand>, k: nat)
    requires forall i | 0 <= i < |handed| :: handed[i].checkout != k
    ensures Given(handed, k) == []
  {
    if handed != [] {
      GivenNone(handed[..|handed| - 1], k);
    }
  }

  lemma AcceptStreams(s: Sys)
    requires StreamsOk(s) && Enabled(s, Accept)
    ensures StreamsOk(DoAccept(s))
  {
    GivenNone(s.handed, |s.owners|);
    assert SendPath.Ok(SendPath.OPENED);
    var t := DoAccept(s);
    forall c | 0 <= c < |t.peers|
      ensures PeerStream(c, t.peers[c], t.handed, t.owners)
    {
      assert PeerStream(c, s.peers[c], s.handed, s.owners);
    }
  }

  lemma RptsOfSnoc(hands: seq<Hand>, h: Hand)
    ensures RptsOf(hands + [h]) == RptsOf(hands) + [h.msg.rpt]
  {
  }

  /** A reply handed over extends the stream of the checkout its object is in and no other. */
  lemma HandOver(s: Sys, m: Msg, late: bool, outs: seq<SendPath.Outcome>, c: nat)
    requires StreamsOk(s) && m.conn < |s.peers| && c < |s.peers|
    requires var p := s.peers[m.conn]; p.conn.open && !p.conn.eventMode
    ensures var p, frame := s.peers[m.conn], Frame(m.rpt);
            var q := p.(conn := SendPath.Send(p.conn, frame, outs).0,
                        failed := p.failed || SendPath.ISend(|frame|, outs).ending == SendPath.Error);
            PeerStream(c, s.peers[m.conn := q][c], s.handed + [Hand(m, p.checkout, late)], s.owners)
  {
    hide Frame, Given, RptsOf, SendPath.ISend;
    var p, frame, h := s.peers[m.conn], Frame(m.rpt), Hand(m, s.peers[m.conn].checkout, late);
    assert PeerStream(m.conn, p, s.handed, s.owners);
    assert PeerStream(c, s.peers[c], s.handed, s.owners);
    GivenSnoc(s.handed, h, s.peers[c].checkout);
    RptsOfSnoc(Given(s.handed, p.checkout), h);
    if c == m.conn && !p.failed {
      SendPath.SendOkExact(p.conn, frame, outs);
    }
  }

  lemma HandItemStreams(s: Sys, outs: seq<SendPath.Outcome>)
    requires StampsOk(s) && HeldOk(s) && StreamsOk(s) && Enabled(s, HandItem(outs))
    ensures StreamsOk(DoHandItem(s, outs))
  {
    hide SendPath.ISend, Frame, Given;
    var m := s.send.queue[s.send.pc.pos];
    var p := s.peers[m.conn];
    var t := DoHandItem(s, outs);
    assert Stamped(m, s.peers, s.born);
    if p.conn.open && !p.conn.eventMode {
      hide PeerStream, StampsOk;
      assert HandOk(Hand(m, p.checkout, s.late), |s.owners|) by {
        assert PeerStream(m.conn, p, s.handed, s.owners);
        OpenHasCheckout(s, m.conn);
      }
      forall c | 0 <= c < |t.peers|
        ensures PeerStream(c, t.peers[c], t.handed, t.owners)
      {
        HandOver(s, m, s.late, outs, c);
      }
    }
  }

  lemma OpenHasCheckout(s: Sys, c: nat)
    requires StreamsOk(s) && c < |s.peers| && s.peers[c].conn.open
    ensures s.peers[c].checkout < |s.owners|
  {
    assert PeerStream(c, s.peers[c], s.handed, s.owners);
  }

  lemma WriteEventStreams(s: Sys, c: nat, outs: seq<SendPath.Outcome>)
    requires StreamsOk(s) && Enabled(s, WriteEvent(c, outs))
    ensures StreamsOk(Next(s, WriteEvent(c, outs)))
  {
    var t := Next(s, WriteEvent(c, outs));
    forall d | 0 <= d < |t.peers|
      ensures PeerStream(d, t.peers[d], t.handed, t.owners)
    {
      assert PeerStream(d, s.peers[d], s.handed, s.owners);
      if d == c && !s.peers[c].failed {
        SendPath.HandleWriteOk(s.peers[c].conn, outs);
      }
    }
  }

  /** Steps that at most close connections or stop reading from them. */
  lemma SameStreams(s: Sys, t: Sys)
    requires StreamsOk(s) && |t.peers| == |s.peers| && t.handed == s.handed && t.owners == s.owners
    requires forall c | 0 <= c < |s.peers| && t.peers[c].conn.open ::
               t.peers[c].conn == s.peers[c].conn && t.peers[c].checkout == s.peers[c].checkout && t.peers[c].failed == s.peers[c].failed
    ensures StreamsOk(t)
  {
    forall c | 0 <= c < |t.peers|
      ensures PeerStream(c, t.peers[c], t.handed, t.owners)
    {
      assert PeerStream(c, s.peers[c], s.handed, s.owners);
    }
  }

  lemma NextStreams(s: Sys, step: Step)
    requires StampsOk(s) && HeldOk(s) && StreamsOk(s)
    ensures StreamsOk(Next(s, step))
  {
    hide StampsOk, StreamsOk, HeldOk;
    if Enabled(s, step) {
      match step
      case Accept => AcceptStreams(s);
      case HandItem(outs) => HandItemStreams(s, outs);
      case WriteEvent(c, outs) => WriteEventStreams(s, c, outs);
      case _ => SameStreams(s, Next(s, step));
    }
  }

  // ---- Messages and wakeups ----

  lemma EraseAt(q: seq<Msg>, pos: nat)
    requires pos < |q|
    ensures multiset(q) == multiset(q[..pos] + q[pos + 1..]) + multiset{q[pos]}
  {
    assert q == q[..pos] + [q[pos]] + q[pos + 1..];
  }

  lemma MsgsOfSnoc(handed: seq<Hand>, h: Hand)
    ensures MsgsOf(handed + [h]) == MsgsOf(handed) + [h.msg]
  {
  }

  lemma TestAccounted(s: Sys)
    requires Accounted(s) && Enabled(s, TestItem)
    ensures Accounted(DoTestItem(s))
  {
    hide Accounted, MsgsOf;
    OneMoved(s, DoTestItem(s), s.send.pc.pos);
  }

  lemma HandAccounted(s: Sys, outs: seq<SendPath.Outcome>)
    requires Accounted(s) && Enabled(s, HandItem(outs))
    ensures Accounted(DoHandItem(s, outs))
  {
    hide Accounted, SendPath.Send, SendPath.ISend, Frame, MsgsOf;
    var m := s.send.queue[s.send.pc.pos];
    MsgsOfSnoc(s.handed, Hand(m, s.peers[m.conn].checkout, s.late));
    OneMoved(s, DoHandItem(s, outs), s.send.pc.pos);
  }

  /** An element of the queue moves to the dropped, the handed or the missed messages. */
  lemma OneMoved(s: Sys, t: Sys, pos: nat)
    requires Accounted(s) && t.pushed == s.pushed && pos < |s.send.queue|
    requires t.send.queue == s.send.queue || t.send.queue == s.send.queue[..pos] + s.send.queue[pos + 1..]
    requires var m := s.send.queue[pos];
             if t.send.queue == s.send.queue then t.dropped == s.dropped && t.handed == s.handed && t.missed == s.missed
             else (t.dropped == s.dropped + [m] && t.handed == s.handed && t.missed == s.missed)
                  || (t.dropped == s.dropped && MsgsOf(t.handed) == MsgsOf(s.handed) + [m] && t.missed == s.missed)
                  || (t.dropped == s.dropped && t.handed == s.handed && t.missed == s.missed + [m])
    ensures Accounted(t)
  {
    hide MsgsOf;
    EraseAt(s.send.queue, pos);
  }

  lemma NextAccounted(s: Sys, step: Step)
    requires Accounted(s)
    ensures Accounted(Next(s, step))
  {
    hide DoTestItem, DoHandItem, Accounted, MsgsOf;
    if Enabled(s, step) {
      match step
      case TestItem => TestAccounted(s);
      case HandItem(outs) => HandAccounted(s, outs);
      case PushReply(m) => PushAccounted(s, Next(s, step), m);
      case _ => SameAccounted(s, Next(s, step));
    }
  }

  lemma PushAccounted(s: Sys, t: Sys, m: Msg)
    requires Accounted(s) && t.pushed == s.pushed + [m] && t.send.queue == s.send.queue + [m]
    requires t.dropped == s.dropped && t.handed == s.handed && t.missed == s.missed
    ensures Accounted(t)
  {
  }

  lemma SameAccounted(s: Sys, t: Sys)
    requires Accounted(s) && t.pushed == s.pushed && t.send.queue == s.send.queue
    requires t.dropped == s.dropped && t.handed == s.handed && t.missed == s.missed
    ensures Accounted(t)
  {
  }

  lemma NextAwakes(s: Sys, step: Step)
    requires Sweeping.Awake(s.send) && Sweeping.Counted(s.send) && Sweeping.Awake(s.recy)
    ensures var t := Next(s, step);
            Sweeping.Awake(t.send) && Sweeping.Counted(t.send) && Sweeping.Awake(t.recy)
  {
    hide Sweeping.Awake, SendPath.Send, SendPath.ISend;
    if Enabled(s, step) {
      match step
      case PushReply(m) => Sweeping.NextAwake(s.send, Sweeping.Push(m));
      case SendMove(move) => Sweeping.NextAwake(s.send, move);
      case TestItem => Sweeping.NextAwake(s.send, Sweeping.Erase(true));
      case HandItem(_) =>
        Sweeping.NextAwake(s.send, Sweeping.Erase(true));
        Sweeping.NextAwake(s.send, Sweeping.Keep);
      case Recycle(c, _) => Sweeping.NextAwake(s.recy, Sweeping.Push(Due(c, s.peers[c].checkout)));
      case RecyMove(move) => Sweeping.NextAwake(s.recy, move);
      case RecyItem(_) =>
        Sweeping.NextAwake(s.recy, Sweeping.Keep);
        Sweeping.NextAwake(s.recy, Sweeping.Erase(false));
      case _ =>
    }
  }

  // ---- Every run ----

  lemma StartGood(size: nat, answer: Rpt -> Rpt)
    requires Framable(answer)
    ensures Good(Start(size, answer))
  {
    StartPool(size, answer);
  }

  lemma NextGood(s: Sys, step: Step)
    requires Good(s)
    ensures Good(Next(s, step))
  {
    hide PoolOk, ClosesOk, StampsOk, HeldOk, StreamsOk, Accounted, ReadOk, AskedOk, Framable, Sweeping.Awake, Sweeping.Counted, Next;
    NextKeepsAnswer(s, step);
    NextRead(s, step);
    NextAsked(s, step);
    NextPool(s, step);
    NextCloses(s, step);
    NextStamps(s, step);
    NextHeld(s, step);
    NextStreams(s, step);
    NextAccounted(s, step);
    NextAwakes(s, step);
  }

  /** In every run, however the event loop, the thread pool, the send thread and the recycle thread interleave. */
  lemma {:induction false} RunGood(s: Sys, steps: seq<Step>)
    requires Good(s)
    ensures Good(Run(s, steps))
    decreases |steps|
  {
    hide Good, Next;
    if steps != [] {
      NextGood(s, steps[0]);
      RunGood(Next(s, steps[0]), steps[1..]);
    }
  }

  /** A reply is handed over in the checkout that received its request if and only if its object was not closed
      between the test of the stamp and the hand-over; and each message pushed has exactly one fate. */
  lemma RepliesReachTheirCheckout(size: nat, answer: Rpt -> Rpt, steps: seq<Step>)
    requires Framable(answer)
    ensures var s := Run(Start(size, answer), steps);
            && (forall i | 0 <= i < |s.handed| :: s.handed[i].checkout == s.handed[i].msg.origin <==> !s.handed[i].late)
            && multiset(s.pushed)
               == multiset(s.send.queue) + multiset(s.dropped) + multiset(MsgsOf(s.handed)) + multiset(s.missed)
  {
    StartGood(size, answer);
    RunGood(Start(size, answer), steps);
    var s := Run(Start(size, answer), steps);
    forall i | 0 <= i < |s.handed|
      ensures s.handed[i].checkout == s.handed[i].msg.origin <==> !s.handed[i].late
    {
      assert HandOk(s.handed[i], |s.owners|);
    }
  }

  /** What happens otherwise: the object is closed and given to the next client before the hand-over, and the
      reply goes out on that client's connection. */
  lemma ForeignReply(s: Sys, now: int, outs: seq<SendPath.Outcome>)
    requires Good(s) && s.held && !s.late && s.free == [] && Enabled(s, RecyItem(now))
    requires var c := s.recy.queue[s.recy.pc.pos].conn; HoldsReplyFor(s, c) && now - s.peers[c].since >= 10_000
    ensures var c, m := s.recy.queue[s.recy.pc.pos].conn, s.send.queue[s.send.pc.pos];
            var t := Next(Next(Next(s, RecyItem(now)), Accept), HandItem(outs));
            && t.handed == s.handed + [Hand(m, |s.owners|, true)] && m.origin < |s.owners|
            && c < |t.peers| && t.peers[c].checkout == |s.owners|
            && t.peers[c].conn.wire + t.peers[c].conn.pending == Frame(m.rpt)
  {
    hide PoolOk, ClosesOk, StreamsOk, AskedOk, ReadOk, Accounted, Frame, SendPath.ISend;
    var c, m := s.recy.queue[s.recy.pc.pos].conn, s.send.queue[s.send.pc.pos];
    assert Stamped(m, s.peers, s.born) && BornOk(s.peers, s.born, |s.owners|);
    var closed := Next(s, RecyItem(now));
    assert closed.free == [c] && closed.late && closed.held;
    var accepted := Next(closed, Accept);
    assert accepted.peers[c].conn == SendPath.OPENED && accepted.send == s.send && accepted.late && accepted.held;
    Fresh(Frame(m.rpt), outs);
  }

  lemma Fresh(frame: seq<Byte>, outs: seq<SendPath.Outcome>)
    ensures var (c, ret) := SendPath.Send(SendPath.OPENED, frame, outs);
            ret != -1 && c.wire + c.pending == frame
  {
    var r := SendPath.ISend(|frame|, outs);
    assert frame[..r.n] + frame[r.n..] == frame;
  }

  /** The clock readings of the recycle thread are before `end`, and no connection is given to it more than ten
      seconds before that. */
  predicate WithinTenSeconds(steps: seq<Step>, end: int) {
    forall i | 0 <= i < |steps| ::
      && (steps[i].RecyItem? ==> steps[i].now < end)
      && (steps[i].Recycle? ==> end - steps[i].now <= 10_000)
  }

  /** The object of the held reply is not with the recycle thread, or was given in at most ten seconds before
      `end`. */
  ghost predicate SafeUntil(s: Sys, end: int) {
    && s.held && !s.late && AtItem(s)
    && var c := s.send.queue[s.send.pc.pos].conn;
       Queued(s.recy.queue, c) ==> end - s.peers[c].since <= 10_000
  }

  lemma NextSafe(s: Sys, step: Step, end: int)
    requires SafeUntil(s, end) && !step.HandItem? && WithinTenSeconds([step], end)
    ensures SafeUntil(Next(s, step), end) && Next(s, step).send == s.send
  {
    assert [step][0] == step;
  }

  /** A guard that can be tested together with the stamp: if the object is not with the recycle thread, or was
      given in less than ten seconds before the hand-over, it is not closed before the hand-over. */
  lemma {:induction false} GuardedHandOver(s: Sys, steps: seq<Step>, end: int)
    requires Good(s) && SafeUntil(s, end) && WithinTenSeconds(steps, end)
    requires forall i | 0 <= i < |steps| :: !steps[i].HandItem?
    ensures var t, m := Run(s, steps), s.send.queue[s.send.pc.pos];
            && t.held && t.send == s.send && |t.peers| > m.conn
            && t.peers[m.conn].conn.open && t.peers[m.conn].checkout == m.origin
    decreases |steps|
  {
    hide Good, SafeUntil, Next;
    if steps == [] {
      SafeIsHeld(s, end);
      HeldExact(s);
    } else {
      var step := steps[0];
      NextGood(s, step);
      assert WithinTenSeconds([step], end) by {
        assert [step][0] == steps[0];
      }
      NextSafe(s, step, end);
      assert forall i | 0 <= i < |steps| - 1 :: steps[1..][i] == steps[i + 1];
      GuardedHandOver(Next(s, step), steps[1..], end);
    }
  }

  lemma SafeIsHeld(s: Sys, end: int)
    requires SafeUntil(s, end)
    ensures s.held && !s.late && AtItem(s)
  {
  }

  /** Whenever a worker is about to wait, its semaphore covers its list. */
  lemma NoLostWakeup(size: nat, answer: Rpt -> Rpt, steps: seq<Step>)
    ensures var s := Run(Start(size, answer), steps);
            && (s.send.pc == Sweeping.Waiting ==> s.send.sem >= |s.send.queue|)
            && (s.recy.pc == Sweeping.Waiting ==> s.recy.sem >= |s.recy.queue|)
  {
    RunAwakes(Start(size, answer), steps);
  }

  lemma {:induction false} RunAwakes(s: Sys, steps: seq<Step>)
    requires Sweeping.Awake(s.send) && Sweeping.Counted(s.send) && Sweeping.Awake(s.recy)
    ensures var t := Run(s, steps);
            Sweeping.Awake(t.send) && Sweeping.Counted(t.send) && Sweeping.Awake(t.recy)
    decreases |steps|
  {
    hide Next, Sweeping.Awake, Sweeping.Counted;
    if steps != [] {
      NextAwakes(s, steps[0]);
      RunAwakes(Next(s, steps[0]), steps[1..]);
    }
  }

  /** Truncation to whole seconds. */
  function WholeSeconds(ms: int): int { if ms >= 0 then ms / 1000 else -(-ms / 1000) }

  /** An element of the recycle sweep is taken out of the queue, or else stays and is posted again, exactly when
      ten whole seconds have passed since its object was given in; the object is then closed and returned to the
      pool, or, if it was free already, the program crashes. */
  lemma ClosedAfterTenSeconds(s: Sys, now: int)
    requires PoolOk(s.peers, s.free) && Enabled(s, RecyItem(now))
    ensures var pos := s.recy.pc.pos; var c, t := s.recy.queue[pos].conn, DoRecyItem(s, now);
            var due := WholeSeconds(now - s.peers[c].since) >= 10;
            && (t.crashed <==> due && !s.peers[c].conn.open)
            && (s.peers[c].conn.open ==> (due <==> c in t.free) && (due <==> !t.peers[c].conn.open))
            && (t.recy.queue == if due && !t.crashed then s.recy.queue[..pos] + s.recy.queue[pos + 1..] else s.recy.queue)
            && (!due ==> t.recy.sem == s.recy.sem + 1)
  {
    var c, t := s.recy.queue[s.recy.pc.pos].conn, DoRecyItem(s, now);
    RecyItemPool(s, now);
    if now - s.peers[c].since >= 10_000 && s.peers[c].conn.open {
      assert t.free[|s.free|] == c;
    }
  }

  // ---- From the request to the client ----

  lemma {:induction false} FramesOfConcat(frames: seq<seq<Byte>>, rs: seq<Rpt>)
    requires FramesOf(frames, rs)
    ensures Concat(frames) == Frames(rs)
    decreases |rs|
  {
    if rs != [] {
      FramesOfConcat(frames[1..], rs[1..]);
    }
  }

  /** The client that decodes what has arrived so far has exactly the first `k` replies handed over in the
      checkout of connection `c`, and part of the next. */
  ghost predicate SeesPrefix(s: Sys, c: nat, k: nat)
    requires c < |s.peers|
  {
    var replies, seen := RptsOf(Given(s.handed, s.peers[c].checkout)), Parse(s.peers[c].conn.wire);
    && k <= |replies| && seen.rpts == replies[..k] && seen.ending == Open
    && (if k == |replies| then seen.rest == [] else seen.rest < Frame(replies[k]))
  }

  /** Every reply handed over in the checkout of `c` answers a request, no two the same; and it is one of the
      requests that the client's own bytes parse to if and only if the object was not closed between the test
      and the hand-over. */
  ghost predicate AnswersRequests(s: Sys, c: nat)
    requires c < |s.peers|
  {
    var k := s.peers[c].checkout; var hands := Given(s.handed, k);
    && (forall i | 0 <= i < |hands| :: AnswersOne(s, hands[i]) && (hands[i].msg.origin == k <==> !hands[i].late))
    && (forall i, j | 0 <= i < j < |hands| :: !SameRequest(hands[i].msg, hands[j].msg))
  }

  /** The reply answers a request parsed from the bytes that were given to the decode loop in its origin. */
  ghost predicate AnswersOne(s: Sys, h: Hand) {
    && h.msg.origin < |s.arrived|
    && var requests := Parse(s.arrived[h.msg.origin]).rpts;
       h.msg.nth < |requests| && h.msg.rpt == s.answer(requests[h.msg.nth])
  }

  /** What holds of every hand-over holds of those in one checkout. */
  lemma {:induction false} GivenIn(handed: seq<Hand>, k: nat)
    ensures forall h | h in Given(handed, k) :: h in handed && h.checkout == k
    ensures |Given(handed, k)| <= |handed|
  {
    if handed != [] {
      GivenIn(handed[..|handed| - 1], k);
    }
  }

  lemma {:induction false} GivenOnce(handed: seq<Hand>, k: nat)
    requires forall i, j | 0 <= i < j < |handed| :: !SameRequest(handed[i].msg, handed[j].msg)
    ensures forall i, j | 0 <= i < j < |Given(handed, k)| :: !SameRequest(Given(handed, k)[i].msg, Given(handed, k)[j].msg)
  {
    if handed != [] {
      var before := handed[..|handed| - 1];
      var last := handed[|handed| - 1];
      GivenOnce(before, k);
      GivenIn(before, k);
      forall i | 0 <= i < |Given(before, k)|
        ensures !SameRequest(Given(before, k)[i].msg, last.msg)
      {
        assert Given(before, k)[i] in before;
      }
    }
  }

  lemma GivenWellFormed(handed: seq<Hand>, k: nat, checkouts: nat)
    requires HandsOk(handed, checkouts)
    ensures forall r | r in RptsOf(Given(handed, k)) :: WellFormed(r)
  {
    hide Given;
    GivenIn(handed, k);
    var hands := Given(handed, k);
    forall r | r in RptsOf(hands)
      ensures WellFormed(r)
    {
      var i :| 0 <= i < |hands| && hands[i].msg.rpt == r;
      assert hands[i] in hands;
      var j :| 0 <= j < |handed| && handed[j] == hands[i];
      assert HandOk(handed[j], checkouts);
    }
  }

  /** The wire of a connection whose direct sends have met no unhandled error. */
  lemma WireDecodes(s: Sys, c: nat) returns (k: nat)
    requires Good(s) && c < |s.peers| && s.peers[c].conn.open && !s.peers[c].failed
    ensures SeesPrefix(s, c, k)
  {
    hide ReadOk, AskedOk, PoolOk, ClosesOk, StampsOk, HeldOk, Accounted, Parse, Given;
    var conn, hands := s.peers[c].conn, Given(s.handed, s.peers[c].checkout);
    var replies := RptsOf(hands);
    assert PeerStream(c, s.peers[c], s.handed, s.owners);
    FramesOfConcat(conn.accepted, replies);
    GivenWellFormed(s.handed, s.peers[c].checkout, |s.owners|);
    assert conn.wire + conn.pending == Frames(replies);
    assert Frames(replies)[..|conn.wire|] == conn.wire;
    k := PrefixParses(replies, |conn.wire|);
  }

  lemma HandsAnswer(s: Sys, c: nat)
    requires ReadOk(s) && AskedOk(s) && Accounted(s) && HandsOk(s.handed, |s.owners|) && c < |s.peers|
    ensures AnswersRequests(s, c)
  {
    hide AskedOk, Accounted, Parse, Given;
    var k := s.peers[c].checkout;
    var hands := Given(s.handed, k);
    HandedAreAsked(s);
    GivenIn(s.handed, k);
    GivenOnce(s.handed, k);
    forall i | 0 <= i < |hands|
      ensures AnswersOne(s, hands[i]) && (hands[i].msg.origin == k <==> !hands[i].late)
    {
      assert hands[i] in hands;
      var j :| 0 <= j < |s.handed| && s.handed[j] == hands[i];
      assert HandOk(s.handed[j], |s.owners|) && Answers(s.handed[j].msg, s.streams, s.answer);
    }
  }

  /** In every run, on every open connection whose direct sends have met no unhandled error: the client has
      decoded exactly the first k replies handed over in this checkout, each the answer to a different request,
      and to one of its own exactly if the object was not closed between the test of that reply's stamp and its
      hand-over. */
  lemma ClientSeesItsReplies(size: nat, answer: Rpt -> Rpt, steps: seq<Step>, c: nat) returns (k: nat)
    requires Framable(answer) && c < |Run(Start(size, answer), steps).peers|
    requires var p := Run(Start(size, answer), steps).peers[c]; p.conn.open && !p.failed
    ensures var s := Run(Start(size, answer), steps);
            s.answer == answer && SeesPrefix(s, c, k) && AnswersRequests(s, c)
  {
    hide Good, Parse;
    StartGood(size, answer);
    RunGood(Start(size, answer), steps);
    var s := Run(Start(size, answer), steps);
    RunKeepsAnswer(Start(size, answer), steps);
    k := WireDecodes(s, c);
    GoodHands(s);
    HandsAnswer(s, c);
  }

  lemma GoodHands(s: Sys)
    requires Good(s)
    ensures ReadOk(s) && AskedOk(s) && Accounted(s) && HandsOk(s.handed, |s.owners|)
  {
  }

  lemma {:induction false} RunKeepsAnswer(s: Sys, steps: seq<Step>)
    ensures Run(s, steps).answer == s.answer
    decreases |steps|
  {
    if steps != [] {
      NextKeepsAnswer(s, steps[0]);
      RunKeepsAnswer(Next(s, steps[0]), steps[1..]);
    }
  }

  lemma NextKeepsAnswer(s: Sys, step: Step)
    ensures Next(s, step).answer == s.answer
  {
  }
}
