/** What becomes of every request, in the whole system with `send` and `tcpHandleWrite` as they stand. */
module FatesAsStand {
  import opened Bytes
  import opened Codec
  import opened Stream
  import opened Delivery
  import opened PoolProofs
  import opened RequestProofs
  import opened DeliveryProofs
  import opened RequestFates
  import opened DeliveryAsStands
  import SendPath
  import UnsignedSend

  ghost predicate TracedRaw(s: Sys) {
    GoodRaw(s) && ClosesOk(s) && AllAsked(s) && BornOnce(s.born, s.owners) && LostOk(s)
  }

  /** The hand-over, whatever `send` answers, as long as it leaves the connection open or closed as it was. */
  lemma HandOverTraced(s: Sys, conn: SendPath.Conn, ret: int, failed: bool)
    requires Placed(s) && AllAsked(s) && LostOk(s) && AtItem(s) && s.held
    requires conn.open == s.peers[s.send.queue[s.send.pc.pos].conn].conn.open
    ensures var t := DoHandOver(s, conn, ret, failed);
            ClosesOk(t) && AllAsked(t) && BornOnce(t.born, t.owners) && LostOk(t)
  {
    hide Placed, ClosesOk, AllAsked, LostOk;
    var t := DoHandOver(s, conn, ret, failed);
    HandOverLost(s, conn, ret, failed);
    SameAllAsked(s, t);
    PlacedCloses(s);
    SameCloses(s, t);
  }

  lemma PlacedCloses(s: Sys)
    requires Placed(s)
    ensures ClosesOk(s) && BornOnce(s.born, s.owners)
  {
  }

  lemma RawIsPlaced(s: Sys)
    requires TracedRaw(s)
    ensures Placed(s) && GoodRaw(s) && ReadOk(s) && PoolOk(s.peers, s.free)
    ensures BornOk(s.peers, s.born, |s.owners|) && RawStreams(s)
  {
  }

  lemma HandTraced(s: Sys, stray: Byte, outs: seq<SendPath.Outcome>)
    requires TracedRaw(s) && Enabled(s, HandItem(outs))
    ensures var t := HandAsWritten(s, stray, outs);
            ClosesOk(t) && AllAsked(t) && BornOnce(t.born, t.owners) && LostOk(t)
  {
    hide GoodRaw, ClosesOk, AllAsked, BornOnce, LostOk, Placed, SendOf, DoHandOver;
    RawIsPlaced(s);
    if UnsignedSend.Returns(Frame(s.send.queue[s.send.pc.pos].rpt), outs) {
      HandKeepsOpen(s, stray, outs);
      var (l, ret) := SendOf(s, stray, outs);
      HandOverTraced(s, l.conn, ret, l.failed || l.zero);
    }
  }

  lemma OtherTraced(s: Sys, step: Step)
    requires TracedRaw(s) && !step.HandItem?
    ensures var t := Next(s, step);
            ClosesOk(t) && AllAsked(t) && BornOnce(t.born, t.owners) && LostOk(t)
  {
    hide GoodRaw, ClosesOk, AllAsked, BornOnce, LostOk, Placed, Next, PoolOk, BornOk, ReadOk;
    RawIsPlaced(s);
    NextCloses(s, step);
    NextAllAsked(s, step);
    NextBornOnce(s, step);
    NextLost(s, step);
  }

  lemma NextTracedRaw(s: Sys, raw: RawStep)
    requires TracedRaw(s)
    ensures TracedRaw(NextAsWritten(s, raw))
  {
    hide GoodRaw, ClosesOk, AllAsked, BornOnce, LostOk, Next, HandAsWritten, WriteAsWritten;
    NextGoodRaw(s, raw);
    RawIsPlaced(s);
    if Enabled(s, raw.step) {
      match raw.step
      case HandItem(outs) => HandTraced(s, raw.stray, outs);
      case WriteEvent(c, outs) => NoWriteEvent(s, c, outs);
      case _ => OtherTraced(s, raw.step);
    }
  }

  lemma {:induction false} RunTracedRaw(s: Sys, steps: seq<RawStep>)
    requires TracedRaw(s)
    ensures TracedRaw(RunAsWritten(s, steps)) && RunAsWritten(s, steps).answer == s.answer
    decreases |steps|
  {
    hide TracedRaw, NextAsWritten;
    if steps != [] {
      NextTracedRaw(s, steps[0]);
      KeepsAnswer(s, steps[0]);
      RunTracedRaw(NextAsWritten(s, steps[0]), steps[1..]);
    }
  }

  lemma KeepsAnswer(s: Sys, raw: RawStep)
    ensures NextAsWritten(s, raw).answer == s.answer
  {
    hide Next, SendOf, UnsignedSend.HandleWriteAsWritten;
    NextKeepsAnswer(s, raw.step);
  }

  lemma RawIsTold(s: Sys)
    requires TracedRaw(s)
    ensures Told(s)
  {
  }

  /** In every run of the system with `send` as it stands, every request has exactly one message, in exactly one place;
      and while its checkout is in progress, none from which its client gets no reply. */
  lemma EveryRequestHasOneFateAsStands(size: nat, answer: Rpt -> Rpt, steps: seq<RawStep>, k: nat, i: nat) returns (m: Msg)
    requires Framable(answer) && k < |RunAsWritten(Start(size, answer), steps).arrived|
    requires i < |Parse(RunAsWritten(Start(size, answer), steps).arrived[k]).rpts|
    ensures var s := RunAsWritten(Start(size, answer), steps); s.answer == answer && OneFate(s, m, k, i)
  {
    hide TracedRaw, Told, Parse, RunAsWritten, OneFate;
    StartRaw(size, answer);
    StartTraced(size, answer);
    StartTracedRaw(Start(size, answer));
    RunTracedRaw(Start(size, answer), steps);
    var s := RunAsWritten(Start(size, answer), steps);
    RawIsTold(s);
    m := FateOf(s, k, i);
  }

  lemma StartTracedRaw(s: Sys)
    requires GoodRaw(s) && Traced(s)
    ensures TracedRaw(s)
  {
  }

  // ---- Runs in which every write call takes something ----

  predicate Takes(raw: RawStep) { raw.step.HandItem? ==> forall o | o in raw.step.outs :: o.Wrote? && o.k > 0 }

  lemma SendStaysClean(s: Sys, stray: Byte, outs: seq<SendPath.Outcome>)
    requires AtItem(s) && UnsignedSend.Returns(Frame(s.send.queue[s.send.pc.pos].rpt), outs)
    requires forall o | o in outs :: o.Wrote? && o.k > 0
    ensures !SendOf(s, stray, outs).0.failed && !SendOf(s, stray, outs).0.zero
  {
    hide Frame, UnsignedSend.ISendAsWritten, UnsignedSend.Left;
    assert forall n | 0 <= n <= |outs| :: forall o | o in outs[..n] :: o in outs;
  }

  lemma NextNoneFailedRaw(s: Sys, raw: RawStep)
    requires GoodRaw(s) && NoneFailed(s) && Takes(raw)
    ensures NoneFailed(NextAsWritten(s, raw))
  {
    hide SendOf, Next, WriteAsWritten, GoodRaw;
    if Enabled(s, raw.step) {
      match raw.step
      case HandItem(outs) =>
        if UnsignedSend.Returns(Frame(s.send.queue[s.send.pc.pos].rpt), outs) {
          SendStaysClean(s, raw.stray, outs);
        }
      case WriteEvent(c, outs) =>
        RawParts(s);
        NoWriteEvent(s, c, outs);
      case _ => NextNoneFailed(s, raw.step);
    }
  }

  lemma RawParts(s: Sys)
    requires GoodRaw(s)
    ensures RawStreams(s)
  {
  }

  lemma {:induction false} RunNoneFailedRaw(s: Sys, steps: seq<RawStep>)
    requires GoodRaw(s) && NoneFailed(s) && forall i | 0 <= i < |steps| :: Takes(steps[i])
    ensures NoneFailed(RunAsWritten(s, steps))
    decreases |steps|
  {
    hide GoodRaw, NoneFailed, Takes, NextAsWritten;
    if steps != [] {
      NextNoneFailedRaw(s, steps[0]);
      NextGoodRaw(s, steps[0]);
      RunNoneFailedRaw(NextAsWritten(s, steps[0]), steps[1..]);
    }
  }

  /** In every run in which every write call takes at least one byte, every client that is still connected has decoded
      all replies handed over in its checkout. */
  lemma EveryClientSeesAllReplies(size: nat, answer: Rpt -> Rpt, steps: seq<RawStep>, c: nat)
    requires Framable(answer) && c < |RunAsWritten(Start(size, answer), steps).peers|
    requires RunAsWritten(Start(size, answer), steps).peers[c].conn.open
    requires forall i | 0 <= i < |steps| :: Takes(steps[i])
    ensures var s := RunAsWritten(Start(size, answer), steps); SeesAll(s, c) && AnswersRequests(s, c)
  {
    hide RunAsWritten, SeesAll, AnswersRequests, Takes, GoodRaw;
    StartRaw(size, answer);
    RunNoneFailedRaw(Start(size, answer), steps);
    ClientSeesAllReplies(size, answer, steps, c);
  }
}
