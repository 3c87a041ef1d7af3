/** What becomes of every request: over every run it has one message, which has one fate, and only the end of its
    checkout keeps the reply from the client that asked. */
module RequestFates {
  import opened Bytes
  import opened Codec
  import opened Common
  import opened Stream
  import opened Delivery
  import opened PoolProofs
  import opened RequestProofs
  import opened DeliveryProofs
  import SendPath
  import Sweeping

  // ---- Every request has a message ----

  predicate For(m: Msg, k: nat, i: nat) { m.origin == k && m.nth == i }

  /** The message for request `i` of checkout `k` is with the thread pool, or has been pushed. */
  ghost predicate HasMsg(tasks: set<Msg>, pushed: seq<Msg>, k: nat, i: nat) {
    (exists m :: m in tasks && For(m, k, i)) || (exists m :: m in pushed && For(m, k, i))
  }

  ghost predicate AllAsked(s: Sys) {
    forall k, i | 0 <= k < |s.streams| && 0 <= i < |s.streams[k].rpts| :: HasMsg(s.tasks, s.pushed, k, i)
  }

  lemma ReceiveAllAsked(s: Sys, c: nat, batch: seq<Byte>)
    requires ReadOk(s) && AllAsked(s) && Enabled(s, Receive(c, batch))
    ensures AllAsked(DoReceive(s, c, batch))
  {
    hide ReadOk, Feed;
    var t, checkout, stamp := DoReceive(s, c, batch), s.peers[c].checkout, s.peers[c].curSeq;
    ReceiveRead(s, c, batch);
    var from, requests := |s.streams[checkout].rpts|, t.streams[checkout].rpts;
    forall k, i | 0 <= k < |t.streams| && 0 <= i < |t.streams[k].rpts|
      ensures HasMsg(t.tasks, t.pushed, k, i)
    {
      if k == checkout && from <= i {
        NewAnswered(s.answer, c, stamp, k, from, requests, i);
      } else {
        assert HasMsg(s.tasks, s.pushed, k, i);
        MoreMsgs(s.tasks, t.tasks, s.pushed, k, i);
      }
    }
  }

  lemma NewAnswered(answer: Rpt -> Rpt, c: nat, stamp: nat, k: nat, from: nat, requests: seq<Rpt>, i: nat)
    requires from <= i < |requests|
    ensures exists m :: m in Answered(answer, c, stamp, k, from, requests) && For(m, k, i)
  {
    var m := Msg(c, stamp, answer(requests[i]), k, i);
    assert m in Answered(answer, c, stamp, k, from, requests) && For(m, k, i);
  }

  lemma MoreMsgs(tasks: set<Msg>, more: set<Msg>, pushed: seq<Msg>, k: nat, i: nat)
    requires HasMsg(tasks, pushed, k, i) && tasks <= more
    ensures HasMsg(more, pushed, k, i)
  {
  }

  lemma PushAllAsked(s: Sys, t: Sys, m: Msg)
    requires AllAsked(s) && t.streams == s.streams && t.tasks == s.tasks - {m} && t.pushed == s.pushed + [m]
    ensures AllAsked(t)
  {
    forall k, i | 0 <= k < |t.streams| && 0 <= i < |t.streams[k].rpts|
      ensures HasMsg(t.tasks, t.pushed, k, i)
    {
      assert HasMsg(s.tasks, s.pushed, k, i);
      if n :| n in s.tasks && For(n, k, i) {
        assert n in t.tasks || n in t.pushed;
      } else {
        var n :| n in s.pushed && For(n, k, i);
        assert n in t.pushed;
      }
    }
  }

  lemma SameAllAsked(s: Sys, t: Sys)
    requires AllAsked(s) && t.tasks == s.tasks && t.pushed == s.pushed
    requires t.streams == s.streams || t.streams == s.streams + [Parsed([], [], Open)]
    ensures AllAsked(t)
  {
    forall k, i | 0 <= k < |t.streams| && 0 <= i < |t.streams[k].rpts|
      ensures HasMsg(t.tasks, t.pushed, k, i)
    {
      assert k < |s.streams| && t.streams[k] == s.streams[k];
    }
  }

  lemma NextAllAsked(s: Sys, step: Step)
    requires ReadOk(s) && AllAsked(s)
    ensures AllAsked(Next(s, step))
  {
    hide ReadOk, AllAsked, Feed;
    if Enabled(s, step) {
      match step
      case Receive(c, batch) => ReceiveAllAsked(s, c, batch);
      case PushReply(m) => PushAllAsked(s, Next(s, step), m);
      case _ => SameAllAsked(s, Next(s, step));
    }
  }

  // ---- A stamp names one checkout only ----

  /** Every checkout has one sequence number of one object. */
  ghost predicate BornOnce(born: map<(nat, nat), nat>, owners: seq<nat>) {
    && (forall j, k | j in born && k in born && born[j] == born[k] :: j == k)
    && (forall k | k in born :: born[k] < |owners| && owners[born[k]] == k.0)
  }

  lemma NextBornOnce(s: Sys, step: Step)
    requires PoolOk(s.peers, s.free) && BornOk(s.peers, s.born, |s.owners|) && BornOnce(s.born, s.owners)
    ensures BornOnce(Next(s, step).born, Next(s, step).owners)
  {
    hide PoolOk, DoReceive, DoHandItem, DoTestItem, SendPath.HandleWrite;
    if Enabled(s, step) && step.Accept? {
      FreeIsClosed(s);
      AcceptBornOnce(s);
    } else {
      hide BornOk, BornOnce;
      SameBirths(s, step);
    }
  }

  lemma AcceptBornOnce(s: Sys)
    requires Enabled(s, Accept) && BornOk(s.peers, s.born, |s.owners|) && BornOnce(s.born, s.owners)
    ensures BornOnce(DoAccept(s).born, DoAccept(s).owners)
  {
    hide BornOnce;
    var key := (s.free[0], s.peers[s.free[0]].curSeq + 1);
    assert key !in s.born;
    BornOnceMore(s.born, s.owners, key);
  }

  lemma BornOnceMore(born: map<(nat, nat), nat>, owners: seq<nat>, key: (nat, nat))
    requires BornOnce(born, owners) && key !in born
    ensures BornOnce(born[key := |owners|], owners + [key.0])
  {
  }

  lemma SameBirths(s: Sys, step: Step)
    requires !(Enabled(s, step) && step.Accept?)
    ensures Next(s, step).born == s.born && Next(s, step).owners == s.owners
  {
    hide StayPut, Next;
    if Enabled(s, step) {
      SamePeers(s, step);
      PutMeansSame(s, Next(s, step));
    } else {
      NoStep(s, step);
    }
  }

  lemma PutMeansSame(s: Sys, t: Sys)
    requires StayPut(s, t)
    ensures t.born == s.born && t.owners == s.owners
  {
  }

  /** The checkout in which a stamped message was asked for is in progress exactly if its stamp is the number of its
      object. */
  lemma StampExact(s: Sys, m: Msg)
    requires PoolOk(s.peers, s.free) && ClosesOk(s) && BornOk(s.peers, s.born, |s.owners|) && BornOnce(s.born, s.owners)
    requires Stamped(m, s.peers, s.born)
    ensures m.origin < |s.owners| && s.owners[m.origin] == m.conn
    ensures s.peers[m.conn].curSeq == m.stamp <==> Current(s, m.origin)
    ensures Ended(s.closes, m.origin) <==> !Current(s, m.origin)
  {
    assert s.born[(m.conn, m.stamp)] == m.origin;
  }

  /** The invariants that say which checkout an object is in, and which one a reply belongs to. */
  ghost predicate Placed(s: Sys) {
    PoolOk(s.peers, s.free) && ClosesOk(s) && StampsOk(s) && HeldOk(s) && BornOnce(s.born, s.owners)
  }

  /** The test of the stamp drops a reply if and only if the checkout that asked for it has been ended. */
  lemma DropExact(s: Sys)
    requires Placed(s) && Enabled(s, TestItem)
    ensures var m, t := s.send.queue[s.send.pc.pos], Next(s, TestItem);
            && t.dropped == (if Ended(s.closes, m.origin) then s.dropped + [m] else s.dropped)
            && t.held == !Ended(s.closes, m.origin)
            && t.send.queue == (if t.held then s.send.queue
                                else s.send.queue[..s.send.pc.pos] + s.send.queue[s.send.pc.pos + 1..])
  {
    hide PoolOk, ClosesOk, BornOk, BornOnce, HeldOk;
    StampExact(s, s.send.queue[s.send.pc.pos]);
  }

  // ---- What the hand-over does ----

  /** A tested reply to a closed object is missed; to one that is sending by events, it stays where it is and is
      posted again; to any other, it is handed over in the checkout the object is in. */
  lemma HandExact(s: Sys, outs: seq<SendPath.Outcome>)
    requires Enabled(s, HandItem(outs))
    ensures var pos := s.send.pc.pos; var m, t := s.send.queue[pos], Next(s, HandItem(outs));
            var p := s.peers[m.conn]; var refused := p.conn.open && p.conn.eventMode;
            && !t.held
            && t.send.queue == (if refused then s.send.queue else s.send.queue[..pos] + s.send.queue[pos + 1..])
            && t.send.sem == (if refused then s.send.sem + 1 else s.send.sem)
            && t.missed == (if p.conn.open then s.missed else s.missed + [m])
            && t.handed == (if p.conn.open && !refused then s.handed + [Hand(m, p.checkout, s.late)] else s.handed)
            && (refused || !p.conn.open ==> t.peers == s.peers)
  {
    hide SendPath.ISend, Frame;
    var m := s.send.queue[s.send.pc.pos];
    assert s.peers[m.conn].conn.open && s.peers[m.conn].conn.eventMode ==>
             s.peers[m.conn := s.peers[m.conn]] == s.peers;
  }

  // ---- Replies that do not reach their checkout ----

  /** A reply was dropped, missed, or handed over late only because the checkout that asked for it had been
      ended. */
  ghost predicate LostOk(s: Sys) {
    && (forall m | m in s.dropped :: Ended(s.closes, m.origin))
    && (forall m | m in s.missed :: Ended(s.closes, m.origin))
    && (forall h | h in s.handed && h.late :: Ended(s.closes, h.msg.origin))
  }

  lemma StillEnded(closes: seq<Close>, more: seq<Close>, k: nat)
    requires Ended(closes, k) && closes <= more
    ensures Ended(more, k)
  {
    var i :| 0 <= i < |closes| && closes[i].met == k;
    assert more[i].met == k;
  }

  lemma MoreCloses(s: Sys, t: Sys)
    requires LostOk(s) && s.closes <= t.closes
    requires t.dropped == s.dropped && t.missed == s.missed && t.handed == s.handed
    ensures LostOk(t)
  {
    hide Ended;
    forall k | Ended(s.closes, k)
      ensures Ended(t.closes, k)
    {
      StillEnded(s.closes, t.closes, k);
    }
  }

  lemma TestLost(s: Sys)
    requires Placed(s) && LostOk(s) && Enabled(s, TestItem)
    ensures LostOk(DoTestItem(s))
  {
    hide Placed, Ended;
    DropExact(s);
  }

  /** A reply held too long belongs to a checkout that has been ended. */
  lemma LateIsEnded(s: Sys)
    requires Placed(s) && s.held
    ensures AtItem(s)
    ensures var m := s.send.queue[s.send.pc.pos];
            s.late || !s.peers[m.conn].conn.open ==> Ended(s.closes, m.origin)
  {
    hide PoolOk, ClosesOk, BornOk, BornOnce, Ended;
    StampExact(s, s.send.queue[s.send.pc.pos]);
  }

  /** Whatever `send` answers and leaves behind. */
  lemma HandOverLost(s: Sys, conn: SendPath.Conn, ret: int, failed: bool)
    requires Placed(s) && LostOk(s) && s.held && AtItem(s)
    ensures LostOk(DoHandOver(s, conn, ret, failed))
  {
    hide Placed, Ended;
    LateIsEnded(s);
  }

  lemma HandLost(s: Sys, outs: seq<SendPath.Outcome>)
    requires Placed(s) && LostOk(s) && Enabled(s, HandItem(outs))
    ensures LostOk(DoHandItem(s, outs))
  {
    hide Placed, LostOk, DoHandOver, SendPath.Send, SendPath.ISend, Frame;
    var frame := Frame(s.send.queue[s.send.pc.pos].rpt);
    var (conn, ret) := SendPath.Send(s.peers[s.send.queue[s.send.pc.pos].conn].conn, frame, outs);
    HandOverLost(s, conn, ret, SendPath.ISend(|frame|, outs).ending == SendPath.Error);
  }

  lemma NextLost(s: Sys, step: Step)
    requires Placed(s) && LostOk(s)
    ensures LostOk(Next(s, step))
  {
    hide Placed, LostOk, DoHandItem, DoTestItem, DoReceive, SendPath.HandleWrite;
    if Enabled(s, step) {
      match step
      case TestItem => TestLost(s);
      case HandItem(outs) => HandLost(s, outs);
      case _ =>
        SameFates(s, step);
        MoreCloses(s, Next(s, step));
    }
  }

  lemma SameFates(s: Sys, step: Step)
    requires Enabled(s, step) && !step.TestItem? && !step.HandItem?
    ensures var t := Next(s, step);
            s.closes <= t.closes && t.dropped == s.dropped && t.missed == s.missed && t.handed == s.handed
  {
    hide Feed, Answered, SendPath.HandleWrite, DoRecyItem;
    if step.RecyItem? {
      RecyFates(s, step.now);
    }
  }

  lemma RecyFates(s: Sys, now: int)
    requires Enabled(s, RecyItem(now))
    ensures var t := DoRecyItem(s, now);
            s.closes <= t.closes && t.dropped == s.dropped && t.missed == s.missed && t.handed == s.handed
  {
    hide HoldsReplyFor;
  }

  // ---- Every run ----

  ghost predicate Traced(s: Sys) { Good(s) && AllAsked(s) && BornOnce(s.born, s.owners) && LostOk(s) }

  lemma NextTraced(s: Sys, step: Step)
    requires Traced(s)
    ensures Traced(Next(s, step))
  {
    hide Next, AllAsked, BornOnce, LostOk;
    NextGood(s, step);
    NextAllAsked(s, step);
    NextBornOnce(s, step);
    NextLost(s, step);
  }

  lemma {:induction false} RunTraced(s: Sys, steps: seq<Step>)
    requires Traced(s)
    ensures Traced(Run(s, steps))
    decreases |steps|
  {
    hide Traced, Next;
    if steps != [] {
      NextTraced(s, steps[0]);
      RunTraced(Next(s, steps[0]), steps[1..]);
    }
  }

  lemma StartTraced(size: nat, answer: Rpt -> Rpt)
    requires Framable(answer)
    ensures Traced(Start(size, answer))
  {
    StartGood(size, answer);
  }

  /** How many messages are where. */
  function Places(s: Sys, m: Msg): nat {
    Tally(m in s.tasks) + multiset(s.send.queue)[m] + multiset(s.dropped)[m] + multiset(MsgsOf(s.handed))[m]
    + multiset(s.missed)[m]
  }

  /** A message is in one place only. */
  lemma OnePlace(s: Sys, m: Msg)
    requires AskedOk(s) && Accounted(s) && (m in s.tasks || m in s.pushed)
    ensures Places(s, m) == 1
  {
    hide Answers, MsgsOf;
    assert SameRequest(m, m);
    forall i, j | 0 <= i < j < |s.pushed|
      ensures s.pushed[i] != s.pushed[j]
    {
      assert !SameRequest(s.pushed[i], s.pushed[j]);
    }
    OnceInMultiset(s.pushed, m);
    assert m in s.pushed <==> multiset(s.pushed)[m] > 0;
  }

  /** Only one message answers a request. */
  lemma OneMessage(s: Sys, m: Msg, n: Msg)
    requires AskedOk(s) && SameRequest(m, n) && (m in s.tasks || m in s.pushed) && (n in s.tasks || n in s.pushed)
    ensures m == n
  {
    hide Answers;
  }

  lemma WhereIsMsg(s: Sys, m: Msg)
    requires Accounted(s) && Places(s, m) > 0
    ensures m in s.tasks || m in s.pushed
    ensures m in s.tasks || m in s.send.queue || m in s.dropped || m in MsgsOf(s.handed) || m in s.missed
  {
    hide MsgsOf;
    assert m in s.pushed <==> multiset(s.pushed)[m] > 0;
  }

  /** In every run, every request that the bytes of a checkout parse to has exactly one message, with its answer,
      and that is in exactly one place: with the thread pool, in the send queue, dropped, handed over or missed.
      While the checkout is in progress it is not dropped or missed, and if it has been handed over, then in that
      checkout. */
  lemma EveryRequestHasOneFate(size: nat, answer: Rpt -> Rpt, steps: seq<Step>, k: nat, i: nat) returns (m: Msg)
    requires Framable(answer) && k < |Run(Start(size, answer), steps).arrived|
    requires i < |Parse(Run(Start(size, answer), steps).arrived[k]).rpts|
    ensures var s := Run(Start(size, answer), steps);
            s.answer == answer && OneFate(s, m, k, i)
  {
    hide Traced, Told, Parse, Run, OneFate;
    StartTraced(size, answer);
    RunTraced(Start(size, answer), steps);
    RunKeepsAnswer(Start(size, answer), steps);
    var s := Run(Start(size, answer), steps);
    TracedIsTold(s);
    m := FateOf(s, k, i);
  }

  /** What the fates of the requests follow from. */
  ghost predicate Told(s: Sys) {
    && ReadOk(s) && AskedOk(s) && Accounted(s) && AllAsked(s) && HandsOk(s.handed, |s.owners|) && ClosesOk(s) && LostOk(s)
  }

  lemma TracedIsTold(s: Sys)
    requires Traced(s)
    ensures Told(s)
  {
  }

  /** Request `i` of checkout `k` has the message `m`, which is in one place; and as long as the checkout is in
      progress, in none from which its client gets no reply. */
  ghost predicate OneFate(s: Sys, m: Msg, k: nat, i: nat)
    requires k < |s.arrived| && i < |Parse(s.arrived[k]).rpts|
  {
    && For(m, k, i) && m.rpt == s.answer(Parse(s.arrived[k]).rpts[i])
    && Places(s, m) == 1 && (forall n | For(n, k, i) && n != m :: Places(s, n) == 0)
    && (Current(s, k) ==>
          && m !in s.dropped && m !in s.missed
          && (m in s.tasks || m in s.send.queue || m in MsgsOf(s.handed))
          && forall h | h in s.handed && h.msg == m :: h.checkout == k)
  }

  lemma FateOf(s: Sys, k: nat, i: nat) returns (m: Msg)
    requires Told(s) && k < |s.arrived| && i < |Parse(s.arrived[k]).rpts|
    ensures OneFate(s, m, k, i)
  {
    hide Parse, Places, Ended, Current, MsgsOf;
    assert ReadOk(s);
    assert HasMsg(s.tasks, s.pushed, k, i);
    if n :| n in s.tasks && For(n, k, i) {
      m := n;
    } else {
      m :| m in s.pushed && For(m, k, i);
    }
    OnePlace(s, m);
    WhereIsMsg(s, m);
    assert Answers(m, s.streams, s.answer);
    OnlyMessage(s, m, k, i);
    forall h | h in s.handed && h.msg == m && Current(s, k)
      ensures h.checkout == k
    {
      var j :| 0 <= j < |s.handed| && s.handed[j] == h;
      assert HandOk(s.handed[j], |s.owners|);
    }
  }

  lemma OnlyMessage(s: Sys, m: Msg, k: nat, i: nat)
    requires AskedOk(s) && Accounted(s) && For(m, k, i) && (m in s.tasks || m in s.pushed)
    ensures forall n | For(n, k, i) && n != m :: Places(s, n) == 0
  {
    hide Places, AskedOk;
    forall n | For(n, k, i) && n != m
      ensures Places(s, n) == 0
    {
      if Places(s, n) > 0 {
        WhereIsMsg(s, n);
        OneMessage(s, m, n);
      }
    }
  }

  // ---- Runs without hard errors ----

  /** No write call of a hand-over ends in an error that is not handled, or writes nothing. */
  predicate Harmless(step: Step) {
    step.HandItem? ==> forall o | o in step.outs :: !o.Failed? && o != SendPath.Wrote(0)
  }

  lemma HarmlessEnds(len: nat, outs: seq<SendPath.Outcome>)
    requires forall o | o in outs :: !o.Failed? && o != SendPath.Wrote(0)
    ensures SendPath.ISend(len, outs).ending != SendPath.Error
  {
    SendPath.ISendCounts(len, outs);
    var n := SendPath.CallsBefore(outs);
    assert n < |outs| ==> outs[n] in outs;
  }

  ghost predicate NoneFailed(s: Sys) { forall c | 0 <= c < |s.peers| :: !s.peers[c].failed }

  lemma NextNoneFailed(s: Sys, step: Step)
    requires NoneFailed(s) && Harmless(step)
    ensures NoneFailed(Next(s, step))
  {
    hide SendPath.Send, SendPath.ISend, SendPath.HandleWrite, Frame, Feed;
    if Enabled(s, step) && step.HandItem? {
      HarmlessEnds(|Frame(s.send.queue[s.send.pc.pos].rpt)|, step.outs);
    }
  }

  lemma {:induction false} RunNoneFailed(s: Sys, steps: seq<Step>)
    requires NoneFailed(s) && forall i | 0 <= i < |steps| :: Harmless(steps[i])
    ensures NoneFailed(Run(s, steps))
    decreases |steps|
  {
    hide NoneFailed, Harmless, Next;
    if steps != [] {
      NextNoneFailed(s, steps[0]);
      RunNoneFailed(Next(s, steps[0]), steps[1..]);
    }
  }

  /** In every run whose hand-overs meet no hard error, every client that is still connected has decoded exactly the
      first k replies handed over in its checkout. */
  lemma EveryClientSeesItsReplies(size: nat, answer: Rpt -> Rpt, steps: seq<Step>, c: nat) returns (k: nat)
    requires Framable(answer) && c < |Run(Start(size, answer), steps).peers|
    requires Run(Start(size, answer), steps).peers[c].conn.open
    requires forall i | 0 <= i < |steps| :: Harmless(steps[i])
    ensures var s := Run(Start(size, answer), steps); SeesPrefix(s, c, k) && AnswersRequests(s, c)
  {
    hide Run, SeesPrefix, AnswersRequests, Harmless;
    RunNoneFailed(Start(size, answer), steps);
    k := ClientSeesItsReplies(size, answer, steps, c);
  }

  // ---- Write events ----

  /** A write event in which the socket takes all that is buffered: the client then decodes every reply handed over in
      its checkout, and replies are sent directly again. */
  lemma WriteEventFlushes(s: Sys, c: nat, outs: seq<SendPath.Outcome>)
    requires Good(s) && Enabled(s, WriteEvent(c, outs)) && !s.peers[c].failed
    requires SendPath.Taken(outs[..SendPath.CallsBefore(outs)]) >= |s.peers[c].conn.pending|
    ensures var t := Next(s, WriteEvent(c, outs));
            && t == s.(peers := s.peers[c := t.peers[c]])
            && !t.peers[c].conn.eventMode && t.peers[c].conn.pending == []
            && Parse(t.peers[c].conn.wire) == Parsed(RptsOf(Given(t.handed, t.peers[c].checkout)), [], Open)
  {
    hide ReadOk, AskedOk, PoolOk, ClosesOk, StampsOk, HeldOk, Accounted, Parse, Given, SendPath.HandleWrite, Frames;
    var conn := s.peers[c].conn;
    var replies := RptsOf(Given(s.handed, s.peers[c].checkout));
    assert PeerStream(c, s.peers[c], s.handed, s.owners);
    SendPath.WriteEventSends(conn, outs);
    assert conn.pending[..|conn.pending|] == conn.pending;
    FramesOfConcat(conn.accepted, replies);
    GivenWellFormed(s.handed, s.peers[c].checkout, |s.owners|);
    AllFramesParse(replies);
  }
}
