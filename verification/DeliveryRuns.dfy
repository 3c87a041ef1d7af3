/** Runs of the system from its start, in which a reply goes to another client, or a connection is recycled
    twice. */
module DeliveryRuns {
  import opened Bytes
  import opened Codec
  import opened Delivery
  import opened DeliveryProofs
  import opened PoolProofs
  import SendPath
  import Stream
  import Sweeping

  // ---- What a second recycle does ----

  /** A client is accepted, and `recycle` is called twice for its connection before the recycle thread wakes. */
  const RECYCLED_TWICE := [Accept, Recycle(0, 0), Recycle(0, 0)]

  /** The recycle thread begins a sweep. */
  const RECY_SWEEP := [RecyMove(Sweeping.Wait), RecyMove(Sweeping.Test), RecyMove(Sweeping.Aim), RecyMove(Sweeping.Lock)]

  /** The first element of the doubled queue has been closed, after ten seconds. */
  function ClosedOnce(answer: Rpt -> Rpt): Sys {
    var conn := SendPath.OPENED.(open := false);
    Sys([Peer(conn, 2, false, 0, 0, false)], [0], [Stream.Parsed([], [], Stream.Open)], {}, answer,
        Sweeping.Sweeper([], 0, 0, Sweeping.Waiting), false,
        Sweeping.Sweeper([Due(0, 0)], 2, 1, Sweeping.At(0)), false,
        false, true, [Close(0, 0)], [[]], [0], map[(0, 1) := 0], [], [], [], [])
  }

  lemma RunThree(s: Sys, a: Step, b: Step, c: Step)
    ensures Run(s, [a, b, c]) == Next(Next(Next(s, a), b), c)
  {
    hide Next;
    assert [a, b, c][1..] == [b, c] && [b, c][1..] == [c] && [c][1..] == [];
    assert Run(Next(s, a), [b, c]) == Run(Next(Next(s, a), b), [c]);
    assert Run(Next(Next(s, a), b), [c]) == Run(Next(Next(Next(s, a), b), c), []);
  }

  lemma RunFour(s: Sys, a: Step, b: Step, c: Step, d: Step)
    ensures Run(s, [a, b, c, d]) == Next(Next(Next(Next(s, a), b), c), d)
  {
    hide Next;
    assert [a, b, c, d][1..] == [b, c, d];
    RunThree(Next(s, a), b, c, d);
  }

  lemma RunTwo(s: Sys, a: Step, b: Step)
    ensures Run(s, [a, b]) == Next(Next(s, a), b)
  {
    hide Next;
    assert [a, b][1..] == [b] && [b][1..] == [];
    assert Run(Next(s, a), [b]) == Run(Next(Next(s, a), b), []);
  }

  lemma TwiceRecycled(answer: Rpt -> Rpt)
    ensures var s := Run(Start(1, answer), RECYCLED_TWICE);
            && s.recy == Sweeping.Sweeper([Due(0, 0), Due(0, 0)], 2, 2, Sweeping.Waiting)
            && s.peers == [Peer(SendPath.OPENED, 1, false, 0, 0, false)] && !s.crashed && s.free == []
            && s == ClosedOnce(answer).(peers := s.peers, free := [], recy := s.recy, closes := [])
  {
    var start := Start(1, answer);
    RunThree(start, Accept, Recycle(0, 0), Recycle(0, 0));
    var accepted := Next(start, Accept);
    assert accepted.peers == [Peer(SendPath.OPENED, 1, true, 0, 0, false)] && accepted.free == [];
    var once := Next(accepted, Recycle(0, 0));
    assert once.recy.queue == [Due(0, 0)];
    assert once.recy.queue[0].conn == 0;
  }

  lemma QuietRecy(s: Sys, move: Sweeping.Move<Due>)
    requires !s.crashed && IsQuiet(move) && Sweeping.Enabled(s.recy, move)
    ensures Next(s, RecyMove(move)) == s.(recy := Sweeping.Next(s.recy, move))
  {
  }

  lemma SweepBegins(s: Sys, w: Sweeping.Sweeper<Due>)
    requires !s.crashed && s.recy == w && w.pc == Sweeping.Waiting && w.sem > 0 && w.size > 0 && |w.queue| > 0
    ensures Run(s, RECY_SWEEP) == s.(recy := w.(sem := w.sem - 1, pc := Sweeping.At(0)))
  {
    hide Next, Run;
    RunFour(s, RecyMove(Sweeping.Wait), RecyMove(Sweeping.Test), RecyMove(Sweeping.Aim), RecyMove(Sweeping.Lock));
    QuietRecy(s, Sweeping.Wait);
    var woken := w.(sem := w.sem - 1, pc := Sweeping.Woken);
    QuietRecy(s.(recy := woken), Sweeping.Test);
    QuietRecy(s.(recy := woken.(pc := Sweeping.Ready)), Sweeping.Aim);
    QuietRecy(s.(recy := woken.(pc := Sweeping.Aimed(false))), Sweeping.Lock);
  }

  lemma FirstClose(answer: Rpt -> Rpt)
    ensures Next(Run(Start(1, answer), RECYCLED_TWICE + RECY_SWEEP), RecyItem(10_000)) == ClosedOnce(answer)
  {
    hide Run;
    RunAppend(Start(1, answer), RECYCLED_TWICE, RECY_SWEEP);
    TwiceRecycled(answer);
    var s := Run(Start(1, answer), RECYCLED_TWICE);
    SweepBegins(s, s.recy);
    var t := s.(recy := s.recy.(sem := 1, pc := Sweeping.At(0)));
    assert t.recy.queue[..0] + t.recy.queue[1..] == [Due(0, 0)];
    assert DoRecyItem(t, 10_000).peers == ClosedOnce(answer).peers;
  }

  /** A run in which a second `recycle` closes the connection of the next client, for which `recycle` was never
      called. */
  lemma SecondRecycleClosesNext(answer: Rpt -> Rpt)
    ensures var s := Run(Start(1, answer), RECYCLED_TWICE + RECY_SWEEP + [RecyItem(10_000), Accept, RecyItem(10_000)]);
            && s.closes == [Close(0, 0), Close(0, 1)] && !s.crashed && |s.owners| == 2
            && s.free == [0] && |s.peers| == 1 && !s.peers[0].conn.open && s.peers[0].readEnabled
  {
    hide Run;
    var s := Run(Start(1, answer), RECYCLED_TWICE + RECY_SWEEP);
    RunAppend(Start(1, answer), RECYCLED_TWICE + RECY_SWEEP, [RecyItem(10_000), Accept, RecyItem(10_000)]);
    RunThree(s, RecyItem(10_000), Accept, RecyItem(10_000));
    FirstClose(answer);
    var accepted := Next(ClosedOnce(answer), Accept);
    assert accepted.peers == [Peer(SendPath.OPENED, 3, true, 0, 1, false)] && accepted.free == [];
  }

  /** A run in which the second close meets a free object. */
  lemma SecondRecycleCrashes(answer: Rpt -> Rpt)
    ensures var s := Run(Start(1, answer), RECYCLED_TWICE + RECY_SWEEP + [RecyItem(10_000), RecyItem(10_000)]);
            s.crashed && s.closes == [Close(0, 0)]
  {
    hide Run;
    var s := Run(Start(1, answer), RECYCLED_TWICE + RECY_SWEEP);
    RunAppend(Start(1, answer), RECYCLED_TWICE + RECY_SWEEP, [RecyItem(10_000), RecyItem(10_000)]);
    RunTwo(s, RecyItem(10_000), RecyItem(10_000));
    FirstClose(answer);
  }

  // ---- A reply that goes to another client ----

  const REQUEST := Rpt(8, 0, [])

  /** The reply to the request of the first client. */
  function FirstReply(answer: Rpt -> Rpt): Msg { Msg(0, 1, answer(REQUEST), 0, 0) }

  /** A client is accepted and its request arrives; the reply is pushed, and the connection is recycled. */
  function Requested(answer: Rpt -> Rpt): seq<Step> {
    [Accept, Receive(0, Frame(REQUEST)), PushReply(FirstReply(answer)), Recycle(0, 0)]
  }

  /** The send thread begins a sweep. */
  const SEND_SWEEP := [SendMove(Sweeping.Wait), SendMove(Sweeping.Test), SendMove(Sweeping.Aim), SendMove(Sweeping.Lock)]

  /** The state after the request. */
  function Replying(answer: Rpt -> Rpt): Sys {
    Sys([Peer(SendPath.OPENED, 1, false, 0, 0, false)], [], [Stream.Parsed([REQUEST], [], Stream.Open)], {}, answer,
        Sweeping.Sweeper([FirstReply(answer)], 1, 1, Sweeping.Waiting), false,
        Sweeping.Sweeper([Due(0, 0)], 1, 1, Sweeping.Waiting), false,
        false, false, [], [Frame(REQUEST)], [0], map[(0, 1) := 0], [FirstReply(answer)], [], [], [])
  }

  lemma OneRequestParses()
    ensures Stream.Parse(Frame(REQUEST)) == Stream.Parsed([REQUEST], [], Stream.Open)
  {
    hide Stream.Parse;
    Stream.FramesParse([REQUEST], REQUEST, 0);
    assert Frames([REQUEST]) == Frame(REQUEST);
    assert Frames([REQUEST]) + Frame(REQUEST)[..0] == Frame(REQUEST);
  }

  lemma OneAnswered(answer: Rpt -> Rpt)
    ensures Answered(answer, 0, 1, 0, 0, [REQUEST]) == {FirstReply(answer)}
  {
    var requests, tasks := [REQUEST], Answered(answer, 0, 1, 0, 0, [REQUEST]);
    assert Msg(0, 1, answer(requests[0]), 0, 0) in tasks;
    assert forall m | m in tasks :: m == FirstReply(answer);
  }

  lemma ReceiveRequest(answer: Rpt -> Rpt)
    ensures var s := Next(Start(1, answer), Accept);
            Next(s, Receive(0, Frame(REQUEST)))
            == s.(streams := [Stream.Parsed([REQUEST], [], Stream.Open)], arrived := [Frame(REQUEST)],
                  tasks := {FirstReply(answer)})
  {
    hide Stream.Parse, Frame;
    OneRequestParses();
    var s := Next(Start(1, answer), Accept);
    assert s.streams == [Stream.Parsed([], [], Stream.Open)] && s.arrived == [[]];
    assert [] + Frame(REQUEST) == Frame(REQUEST);
    OneAnswered(answer);
    assert s.peers == [Peer(SendPath.OPENED, 1, true, 0, 0, false)] && s.tasks == {};
    var parsed := Stream.Feed(s.streams[0], Frame(REQUEST));
    assert parsed == Stream.Parsed([REQUEST], [], Stream.Open);
  }

  lemma RequestAnswered(answer: Rpt -> Rpt)
    ensures Run(Start(1, answer), Requested(answer)) == Replying(answer)
  {
    hide Run, Stream.Parse, Frame, DoReceive;
    var m := FirstReply(answer);
    RunFour(Start(1, answer), Accept, Receive(0, Frame(REQUEST)), PushReply(m), Recycle(0, 0));
    ReceiveRequest(answer);
    var received := Next(Next(Start(1, answer), Accept), Receive(0, Frame(REQUEST)));
    assert received.peers == [Peer(SendPath.OPENED, 1, true, 0, 0, false)];
    var pushed := Next(received, PushReply(m));
    assert pushed.send.queue == [m] && pushed.tasks == {};
    assert pushed == received.(tasks := {}, pushed := [m], send := Sweeping.Sweeper([m], 1, 1, Sweeping.Waiting));
  }

  lemma QuietSend(s: Sys, move: Sweeping.Move<Msg>)
    requires !s.crashed && IsQuiet(move) && Sweeping.Enabled(s.send, move)
    ensures Next(s, SendMove(move)) == s.(send := Sweeping.Next(s.send, move))
  {
  }

  lemma SendBegins(s: Sys, w: Sweeping.Sweeper<Msg>)
    requires !s.crashed && s.send == w && w.pc == Sweeping.Waiting && w.sem > 0 && w.size > 0 && |w.queue| > 0
    ensures Run(s, SEND_SWEEP) == s.(send := w.(sem := w.sem - 1, pc := Sweeping.At(0)))
  {
    hide Next, Run;
    RunFour(s, SendMove(Sweeping.Wait), SendMove(Sweeping.Test), SendMove(Sweeping.Aim), SendMove(Sweeping.Lock));
    QuietSend(s, Sweeping.Wait);
    var woken := w.(sem := w.sem - 1, pc := Sweeping.Woken);
    QuietSend(s.(send := woken), Sweeping.Test);
    QuietSend(s.(send := woken.(pc := Sweeping.Ready)), Sweeping.Aim);
    QuietSend(s.(send := woken.(pc := Sweeping.Aimed(false))), Sweeping.Lock);
  }

  /** The reply has passed the test of its stamp, and both threads are at the object. */
  function BothAt(answer: Rpt -> Rpt): Sys {
    var s := Replying(answer);
    s.(send := s.send.(sem := 0, pc := Sweeping.At(0)), held := true, recy := s.recy.(sem := 0, pc := Sweeping.At(0)))
  }

  function ToBothAt(answer: Rpt -> Rpt): seq<Step> { Requested(answer) + SEND_SWEEP + ([TestItem] + RECY_SWEEP) }

  lemma ReachBothAt(answer: Rpt -> Rpt)
    ensures Run(Start(1, answer), ToBothAt(answer)) == BothAt(answer)
  {
    hide Run, Next;
    var start, s := Start(1, answer), Replying(answer);
    RunAppend(start, Requested(answer) + SEND_SWEEP, [TestItem] + RECY_SWEEP);
    RunAppend(start, Requested(answer), SEND_SWEEP);
    RequestAnswered(answer);
    SendBegins(s, s.send);
    var at := s.(send := s.send.(sem := 0, pc := Sweeping.At(0)));
    RunCons(at, TestItem, RECY_SWEEP);
    TestPasses(at);
    SweepBegins(at.(held := true), at.recy);
  }

  lemma TestPasses(s: Sys)
    requires Enabled(s, TestItem) && !s.late
    requires var m := s.send.queue[s.send.pc.pos]; s.peers[m.conn].curSeq == m.stamp
    ensures Next(s, TestItem) == s.(held := true)
  {
  }

  /** A run in which the reply to the first client's request, its stamp tested, goes out on the connection of the
      second client. */
  lemma ReplyGoesToNextClient(answer: Rpt -> Rpt, outs: seq<SendPath.Outcome>)
    requires Framable(answer)
    ensures var s := Run(Start(1, answer), ToBothAt(answer) + [RecyItem(10_000), Accept, HandItem(outs)]);
            && s.handed == [Hand(FirstReply(answer), 1, true)]
            && |s.peers| == 1 && s.peers[0].checkout == 1
            && s.peers[0].conn.wire + s.peers[0].conn.pending == Frame(answer(REQUEST))
  {
    hide Run, Next, Good, Frame;
    var start, s := Start(1, answer), BothAt(answer);
    RunAppend(start, ToBothAt(answer), [RecyItem(10_000), Accept, HandItem(outs)]);
    ReachBothAt(answer);
    StartGood(1, answer);
    RunGood(start, ToBothAt(answer));
    RunThree(s, RecyItem(10_000), Accept, HandItem(outs));
    ForeignReply(s, 10_000, outs);
    OnePeer(s, [RecyItem(10_000), Accept, HandItem(outs)]);
  }

  /** The pool keeps its size. */
  lemma {:induction false} OnePeer(s: Sys, steps: seq<Step>)
    ensures |Run(s, steps).peers| == |s.peers|
    decreases |steps|
  {
    if steps != [] {
      NextSize(s, steps[0]);
      hide Next;
      OnePeer(Next(s, steps[0]), steps[1..]);
    }
  }

  lemma NextSize(s: Sys, step: Step)
    ensures |Next(s, step).peers| == |s.peers|
  {
    hide StayPut, Next;
    if Enabled(s, step) && step.Accept? {
      AcceptSize(s);
    } else if Enabled(s, step) {
      SamePeers(s, step);
      PutSize(s, Next(s, step));
    } else {
      NoStep(s, step);
    }
  }

  lemma AcceptSize(s: Sys)
    requires Enabled(s, Accept)
    ensures |Next(s, Accept).peers| == |s.peers|
  {
  }

  lemma PutSize(s: Sys, t: Sys)
    requires StayPut(s, t)
    ensures |t.peers| == |s.peers|
  {
  }
}
