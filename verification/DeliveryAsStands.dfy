/** The whole system with `send` and `tcpHandleWrite` as they stand (`UnsignedSend`) in place of the intended
    ones: what a client decodes as long as no write call on its connection has failed. */
module DeliveryAsStands {
  import opened Bytes
  import opened Codec
  import opened Stream
  import opened Delivery
  import opened PoolProofs
  import opened RequestProofs
  import opened DeliveryProofs
  import SendPath
  import Sweeping
  import UnsignedSend

  /** A step, and the byte that memory holds before the frame or the write buffer. */
  datatype RawStep = RawStep(step: Step, stray: Byte)

  /** `send` of the held reply's frame, on the connection as it is. */
  function SendOf(s: Sys, stray: Byte, outs: seq<SendPath.Outcome>): (UnsignedSend.Line, int)
    requires AtItem(s) && UnsignedSend.Returns(Frame(s.send.queue[s.send.pc.pos].rpt), outs)
  {
    var m := s.send.queue[s.send.pc.pos];
    UnsignedSend.SendAsWritten(UnsignedSend.Line(s.peers[m.conn].conn, false, false), Frame(m.rpt), stray, outs)
  }

  /** The hand-over, if `isend` returns; `failed` records a write call that has failed or written nothing. */
  function HandAsWritten(s: Sys, stray: Byte, outs: seq<SendPath.Outcome>): Sys
    requires AtItem(s)
  {
    if !UnsignedSend.Returns(Frame(s.send.queue[s.send.pc.pos].rpt), outs) then s
    else
      var (l, ret) := SendOf(s, stray, outs);
      DoHandOver(s, l.conn, ret, l.failed || l.zero)
  }

  function WriteAsWritten(s: Sys, c: nat, stray: Byte, outs: seq<SendPath.Outcome>): Sys
    requires c < |s.peers|
  {
    var p := s.peers[c];
    if !UnsignedSend.Returns(p.conn.pending, outs) then s
    else
      var l := UnsignedSend.HandleWriteAsWritten(UnsignedSend.Line(p.conn, false, false), stray, outs);
      s.(peers := s.peers[c := p.(conn := l.conn, failed := p.failed || l.failed || l.zero)])
  }

  function NextAsWritten(s: Sys, raw: RawStep): Sys {
    if !Enabled(s, raw.step) then s
    else
      match raw.step
      case HandItem(outs) => HandAsWritten(s, raw.stray, outs)
      case WriteEvent(c, outs) => WriteAsWritten(s, c, raw.stray, outs)
      case _ => Next(s, raw.step)
  }

  function RunAsWritten(s: Sys, steps: seq<RawStep>): Sys
    decreases |steps|
  {
    if steps == [] then s else RunAsWritten(NextAsWritten(s, steps[0]), steps[1..])
  }

  /** Event-driven sending is off; as long as no write call has failed, everything handed over has been sent. */
  ghost predicate PeerRaw(c: nat, p: Peer, handed: seq<Hand>, owners: seq<nat>) {
    p.conn.open ==>
      && p.checkout < |owners| && owners[p.checkout] == c
      && FramesOf(p.conn.accepted, RptsOf(Given(handed, p.checkout)))
      && !p.conn.eventMode && !p.conn.writeEnabled
      && (!p.failed ==> p.conn.pending == [] && p.conn.wire == Concat(p.conn.accepted))
  }

  ghost predicate RawStreams(s: Sys) {
    && (forall c | 0 <= c < |s.peers| :: PeerRaw(c, s.peers[c], s.handed, s.owners))
    && HandsOk(s.handed, |s.owners|)
  }

  ghost predicate GoodRaw(s: Sys) {
    && Framable(s.answer) && ReadOk(s) && AskedOk(s)
    && PoolOk(s.peers, s.free) && StampsOk(s) && HeldOk(s) && Accounted(s) && RawStreams(s)
    && Sweeping.Awake(s.send) && Sweeping.Counted(s.send) && Sweeping.Awake(s.recy)
  }

  // ---- Streams ----

  lemma AcceptRaw(s: Sys)
    requires RawStreams(s) && Enabled(s, Accept)
    ensures RawStreams(DoAccept(s))
  {
    GivenNone(s.handed, |s.owners|);
    var t := DoAccept(s);
    forall c | 0 <= c < |t.peers|
      ensures PeerRaw(c, t.peers[c], t.handed, t.owners)
    {
      assert PeerRaw(c, s.peers[c], s.handed, s.owners);
    }
  }

  lemma SameRaw(s: Sys, t: Sys)
    requires RawStreams(s) && |t.peers| == |s.peers| && t.handed == s.handed && t.owners == s.owners
    requires forall c | 0 <= c < |s.peers| && t.peers[c].conn.open ::
               t.peers[c].conn == s.peers[c].conn && t.peers[c].checkout == s.peers[c].checkout && t.peers[c].failed == s.peers[c].failed
    ensures RawStreams(t)
  {
    forall c | 0 <= c < |t.peers|
      ensures PeerRaw(c, t.peers[c], t.handed, t.owners)
    {
      assert PeerRaw(c, s.peers[c], s.handed, s.owners);
    }
  }

  /** One `send` as it stands, on a connection that has met no failure, or on one that has. */
  lemma SendRaw(conn: SendPath.Conn, sound: bool, frame: seq<Byte>, stray: Byte, outs: seq<SendPath.Outcome>)
    requires conn.open && !conn.eventMode && !conn.writeEnabled && UnsignedSend.Returns(frame, outs)
    requires sound ==> conn.pending == [] && conn.wire == Concat(conn.accepted)
    ensures var (l, ret) := UnsignedSend.SendAsWritten(UnsignedSend.Line(conn, false, false), frame, stray, outs);
            && ret != -1 && l.conn.open && !l.conn.eventMode && !l.conn.writeEnabled
            && l.conn.accepted == conn.accepted + [frame]
            && (sound && !l.failed && !l.zero ==> l.conn.pending == [] && l.conn.wire == Concat(l.conn.accepted))
  {
    hide UnsignedSend.ISendAsWritten, UnsignedSend.Left, UnsignedSend.NoFailure;
    if sound {
      UnsignedSend.SendRawOk(UnsignedSend.Line(conn, false, false), frame, stray, outs);
    }
  }

  lemma HandRawOne(s: Sys, stray: Byte, outs: seq<SendPath.Outcome>, c: nat)
    requires RawStreams(s) && AtItem(s) && c < |s.peers|
    requires UnsignedSend.Returns(Frame(s.send.queue[s.send.pc.pos].rpt), outs)
    requires s.peers[s.send.queue[s.send.pc.pos].conn].conn.open
    ensures var t := HandAsWritten(s, stray, outs); PeerRaw(c, t.peers[c], t.handed, t.owners)
  {
    hide Frame, Given, RptsOf, UnsignedSend.SendAsWritten;
    var m := s.send.queue[s.send.pc.pos];
    var p := s.peers[m.conn];
    var h := Hand(m, p.checkout, s.late);
    assert PeerRaw(m.conn, p, s.handed, s.owners);
    assert PeerRaw(c, s.peers[c], s.handed, s.owners);
    SendRaw(p.conn, !p.failed, Frame(m.rpt), stray, outs);
    GivenSnoc(s.handed, h, s.peers[c].checkout);
    RptsOfSnoc(Given(s.handed, p.checkout), h);
  }

  lemma HandRaw(s: Sys, stray: Byte, outs: seq<SendPath.Outcome>)
    requires StampsOk(s) && HeldOk(s) && RawStreams(s) && Enabled(s, HandItem(outs))
    ensures RawStreams(HandAsWritten(s, stray, outs))
  {
    var m := s.send.queue[s.send.pc.pos];
    var p := s.peers[m.conn];
    assert Stamped(m, s.peers, s.born) && m.origin < |s.owners|;
    if UnsignedSend.Returns(Frame(m.rpt), outs) {
      assert PeerRaw(m.conn, p, s.handed, s.owners);
      hide Frame, Given, RptsOf, UnsignedSend.SendAsWritten, PeerRaw, StampsOk;
      var t := HandAsWritten(s, stray, outs);
      if p.conn.open {
        SendRaw(p.conn, false, Frame(m.rpt), stray, outs);
        assert HandOk(Hand(m, p.checkout, s.late), |s.owners|);
        forall c | 0 <= c < |t.peers|
          ensures PeerRaw(c, t.peers[c], t.handed, t.owners)
        {
          HandRawOne(s, stray, outs, c);
        }
      } else {
        SameRaw(s, t);
      }
    }
  }

  // ---- The other invariants: only the state of one open connection changes ----

  lemma HandKeepsOpen(s: Sys, stray: Byte, outs: seq<SendPath.Outcome>)
    requires AtItem(s) && UnsignedSend.Returns(Frame(s.send.queue[s.send.pc.pos].rpt), outs)
    ensures var m := s.send.queue[s.send.pc.pos];
            SendOf(s, stray, outs).0.conn.open == s.peers[m.conn].conn.open
  {
    hide UnsignedSend.ISendAsWritten, UnsignedSend.Left;
  }

  lemma HandOverKeeps(s: Sys, conn: SendPath.Conn, ret: int, failed: bool)
    requires ReadOk(s) && AskedOk(s) && PoolOk(s.peers, s.free) && StampsOk(s) && AtItem(s)
    requires conn.open == s.peers[s.send.queue[s.send.pc.pos].conn].conn.open
    ensures var t := DoHandOver(s, conn, ret, failed);
            && t.answer == s.answer && ReadOk(t) && AskedOk(t) && PoolOk(t.peers, t.free)
            && StampsOk(t) && HeldOk(t) && t.recy == s.recy
  {
    hide ReadOk, AskedOk, PoolOk, StampsOk;
    var t := DoHandOver(s, conn, ret, failed);
    SameRead(s, t);
    SameAsked(s, t);
    SamePool(s, t);
    assert StayPut(s, t);
    HandOverStamps(s, t);
  }

  lemma HandOverMoves(s: Sys, conn: SendPath.Conn, ret: int, failed: bool)
    requires Accounted(s) && AtItem(s)
    ensures Accounted(DoHandOver(s, conn, ret, failed))
  {
    hide Accounted, MsgsOf;
    var t, pos := DoHandOver(s, conn, ret, failed), s.send.pc.pos;
    var m := s.send.queue[pos];
    MsgsOfSnoc(s.handed, Hand(m, s.peers[m.conn].checkout, s.late));
    OneMoved(s, t, pos);
  }

  lemma HandOverAwakes(s: Sys, conn: SendPath.Conn, ret: int, failed: bool)
    requires Sweeping.Awake(s.send) && Sweeping.Counted(s.send) && AtItem(s)
    ensures var t := DoHandOver(s, conn, ret, failed); Sweeping.Awake(t.send) && Sweeping.Counted(t.send)
  {
    hide Sweeping.Awake, Sweeping.Counted;
    Sweeping.NextAwake(s.send, Sweeping.Keep);
    Sweeping.NextAwake(s.send, Sweeping.Erase(true));
  }

  lemma HandOverStamps(s: Sys, t: Sys)
    requires StampsOk(s) && StayPut(s, t) && t.tasks == s.tasks
    requires forall m | m in t.send.queue :: m in s.send.queue
    ensures StampsOk(t)
  {
    SameBorn(s, t);
    KeepStamps(s, t);
  }

  lemma HandGood(s: Sys, stray: Byte, outs: seq<SendPath.Outcome>)
    requires GoodRaw(s) && Enabled(s, HandItem(outs))
    ensures GoodRaw(HandAsWritten(s, stray, outs))
  {
    hide Framable, ReadOk, AskedOk, PoolOk, StampsOk, HeldOk, Accounted, RawStreams, Sweeping.Awake, Sweeping.Counted, SendOf, DoHandOver;
    HandRaw(s, stray, outs);
    if UnsignedSend.Returns(Frame(s.send.queue[s.send.pc.pos].rpt), outs) {
      HandKeepsOpen(s, stray, outs);
      var (l, ret) := SendOf(s, stray, outs);
      HandOverKeeps(s, l.conn, ret, l.failed || l.zero);
      HandOverMoves(s, l.conn, ret, l.failed || l.zero);
      HandOverAwakes(s, l.conn, ret, l.failed || l.zero);
    }
  }

  lemma OtherGood(s: Sys, step: Step)
    requires GoodRaw(s) && Enabled(s, step) && !step.HandItem? && !step.WriteEvent?
    ensures GoodRaw(Next(s, step))
  {
    hide Framable, ReadOk, AskedOk, PoolOk, StampsOk, HeldOk, Accounted, RawStreams, Sweeping.Awake, Sweeping.Counted, Next;
    NextKeepsAnswer(s, step);
    NextRead(s, step);
    NextAsked(s, step);
    NextPool(s, step);
    NextStamps(s, step);
    NextHeld(s, step);
    OtherRaw(s, step);
    NextAccounted(s, step);
    NextAwakes(s, step);
  }

  lemma OtherRaw(s: Sys, step: Step)
    requires RawStreams(s) && Enabled(s, step) && !step.HandItem? && !step.WriteEvent?
    ensures RawStreams(Next(s, step))
  {
    hide RawStreams;
    if step.Accept? {
      AcceptRaw(s);
    } else {
      SameRaw(s, Next(s, step));
    }
  }

  /** No write event ever comes. */
  lemma NoWriteEvent(s: Sys, c: nat, outs: seq<SendPath.Outcome>)
    requires RawStreams(s)
    ensures !Enabled(s, WriteEvent(c, outs))
  {
    if c < |s.peers| {
      assert PeerRaw(c, s.peers[c], s.handed, s.owners);
    }
  }

  lemma NextGoodRaw(s: Sys, raw: RawStep)
    requires GoodRaw(s)
    ensures GoodRaw(NextAsWritten(s, raw))
  {
    if Enabled(s, raw.step) {
      match raw.step
      case HandItem(outs) => HandGood(s, raw.stray, outs);
      case WriteEvent(c, outs) => NoWriteEvent(s, c, outs);
      case _ => OtherGood(s, raw.step);
    }
  }

  lemma {:induction false} RunGoodRaw(s: Sys, steps: seq<RawStep>)
    requires GoodRaw(s)
    ensures GoodRaw(RunAsWritten(s, steps))
    decreases |steps|
  {
    hide GoodRaw, NextAsWritten;
    if steps != [] {
      NextGoodRaw(s, steps[0]);
      RunGoodRaw(NextAsWritten(s, steps[0]), steps[1..]);
    }
  }

  // ---- What the client decodes ----

  /** The client has decoded every reply handed over in the checkout of `c`, and nothing is left over. */
  ghost predicate SeesAll(s: Sys, c: nat)
    requires c < |s.peers|
  {
    Parse(s.peers[c].conn.wire) == Parsed(RptsOf(Given(s.handed, s.peers[c].checkout)), [], Open)
  }

  lemma AllDecoded(s: Sys, c: nat)
    requires GoodRaw(s) && c < |s.peers| && s.peers[c].conn.open && !s.peers[c].failed
    ensures SeesAll(s, c) && AnswersRequests(s, c)
  {
    hide PoolOk, StampsOk, HeldOk, AskedOk, Accounted, ReadOk, Parse, Given, AnswersRequests;
    var conn, replies := s.peers[c].conn, RptsOf(Given(s.handed, s.peers[c].checkout));
    assert PeerRaw(c, s.peers[c], s.handed, s.owners);
    FramesOfConcat(conn.accepted, replies);
    GivenWellFormed(s.handed, s.peers[c].checkout, |s.owners|);
    AllFramesParse(replies);
    HandsAnswer(s, c);
  }

  /** With `send` as it stands, in every run: on every open connection on which no write call has failed or
      written nothing, the client has decoded all replies handed over in this checkout; each answers a different
      request, and one of the client's own exactly if the object was not closed between its test and its
      hand-over. */
  lemma ClientSeesAllReplies(size: nat, answer: Rpt -> Rpt, steps: seq<RawStep>, c: nat)
    requires Framable(answer) && c < |RunAsWritten(Start(size, answer), steps).peers|
    requires var p := RunAsWritten(Start(size, answer), steps).peers[c]; p.conn.open && !p.failed
    ensures var s := RunAsWritten(Start(size, answer), steps); SeesAll(s, c) && AnswersRequests(s, c)
  {
    hide GoodRaw, SeesAll, AnswersRequests;
    StartRaw(size, answer);
    RunGoodRaw(Start(size, answer), steps);
    AllDecoded(RunAsWritten(Start(size, answer), steps), c);
  }

  lemma StartRaw(size: nat, answer: Rpt -> Rpt)
    requires Framable(answer)
    ensures GoodRaw(Start(size, answer))
  {
    StartGood(size, answer);
  }
}
