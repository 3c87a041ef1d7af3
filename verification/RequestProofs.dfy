/** From the bytes given to the decode loop to the replies handed over: each reply answers a request, and no
    request is answered twice. */
module RequestProofs {
  import opened Bytes
  import opened Codec
  import opened Stream
  import opened Delivery

  // ---- What every step keeps ----

  lemma FeedIsParse(bytes: seq<Byte>, batch: seq<Byte>)
    requires Parse(bytes).ending == Open
    ensures Feed(Parse(bytes), batch) == Parse(bytes + batch)
    ensures Parse(bytes).rpts <= Feed(Parse(bytes), batch).rpts
  {
    hide Parse;
    ParseExtends(bytes, batch);
  }

  lemma ReceiveRead(s: Sys, c: nat, batch: seq<Byte>)
    requires ReadOk(s) && Enabled(s, Receive(c, batch))
    ensures ReadOk(DoReceive(s, c, batch))
    ensures var k := s.peers[c].checkout; s.streams[k].rpts <= DoReceive(s, c, batch).streams[k].rpts
  {
    hide Parse, Feed;
    FeedIsParse(s.arrived[s.peers[c].checkout], batch);
  }

  lemma AcceptRead(s: Sys)
    requires ReadOk(s) && Enabled(s, Accept)
    ensures ReadOk(DoAccept(s))
  {
    hide Parse;
    ParseUnfold([]);
  }

  lemma NextRead(s: Sys, step: Step)
    requires ReadOk(s)
    ensures ReadOk(Next(s, step))
  {
    hide Parse;
    if Enabled(s, step) {
      match step
      case Accept => AcceptRead(s);
      case Receive(c, batch) => ReceiveRead(s, c, batch);
      case _ => SameRead(s, Next(s, step));
    }
  }

  lemma SameRead(s: Sys, t: Sys)
    requires ReadOk(s) && t.streams == s.streams && t.arrived == s.arrived && t.owners == s.owners
    ensures ReadOk(t)
  {
  }

  /** Requests already parsed stay where they are. */
  predicate Extends(streams: seq<Parsed>, more: seq<Parsed>) {
    |streams| <= |more| && forall k | 0 <= k < |streams| :: streams[k].rpts <= more[k].rpts
  }

  lemma AnswersExtends(m: Msg, streams: seq<Parsed>, more: seq<Parsed>, answer: Rpt -> Rpt)
    requires Answers(m, streams, answer) && Extends(streams, more)
    ensures Answers(m, more, answer)
  {
    assert streams[m.origin].rpts <= more[m.origin].rpts;
  }

  lemma SameAsked(s: Sys, t: Sys)
    requires AskedOk(s) && Extends(s.streams, t.streams) && t.tasks == s.tasks && t.pushed == s.pushed && t.answer == s.answer
    ensures AskedOk(t)
  {
    hide Answers, Extends;
    forall m | m in t.tasks
      ensures Answers(m, t.streams, t.answer)
    {
      AnswersExtends(m, s.streams, t.streams, s.answer);
    }
    forall i | 0 <= i < |t.pushed|
      ensures Answers(t.pushed[i], t.streams, t.answer)
    {
      AnswersExtends(t.pushed[i], s.streams, t.streams, s.answer);
    }
  }

  lemma ReceiveAsked(s: Sys, c: nat, batch: seq<Byte>)
    requires ReadOk(s) && AskedOk(s) && Enabled(s, Receive(c, batch))
    ensures AskedOk(DoReceive(s, c, batch))
  {
    hide ReadOk, Feed;
    var t, k := DoReceive(s, c, batch), s.peers[c].checkout;
    var from := |s.streams[k].rpts|;
    ReceiveRead(s, c, batch);
    assert Extends(s.streams, t.streams);
    SameAsked(s, t.(tasks := s.tasks));
    AddAsked(t.(tasks := s.tasks), c, s.peers[c].curSeq, k, from);
  }

  /** Replies to the requests of checkout `k` from the one numbered `from` on, none of which had one. */
  lemma AddAsked(s: Sys, c: nat, stamp: nat, k: nat, from: nat)
    requires AskedOk(s) && k < |s.streams|
    requires forall m | m in s.tasks && m.origin == k :: m.nth < from
    requires forall i | 0 <= i < |s.pushed| && s.pushed[i].origin == k :: s.pushed[i].nth < from
    ensures AskedOk(s.(tasks := s.tasks + Answered(s.answer, c, stamp, k, from, s.streams[k].rpts)))
  {
  }

  lemma PushAsked(s: Sys, m: Msg)
    requires AskedOk(s) && m in s.tasks
    ensures AskedOk(s.(tasks := s.tasks - {m}, pushed := s.pushed + [m]))
  {
  }

  lemma NextAsked(s: Sys, step: Step)
    requires ReadOk(s) && AskedOk(s)
    ensures AskedOk(Next(s, step))
  {
    hide ReadOk, AskedOk, Answers, Extends;
    if Enabled(s, step) {
      match step
      case Receive(c, batch) => ReceiveAsked(s, c, batch);
      case PushReply(m) =>
        PushAsked(s, m);
        ExtendsItself(s.streams);
        SameAsked(s.(tasks := s.tasks - {m}, pushed := s.pushed + [m]), Next(s, step));
      case Accept =>
        ExtendsWith(s.streams);
        SameAsked(s, Next(s, step));
      case _ =>
        ExtendsItself(s.streams);
        SameAsked(s, Next(s, step));
    }
  }

  lemma ExtendsItself(streams: seq<Parsed>)
    ensures Extends(streams, streams)
  {
  }

  lemma ExtendsWith(streams: seq<Parsed>)
    ensures Extends(streams, streams + [Parsed([], [], Open)])
  {
  }

  // ---- What follows for the replies handed over ----

  lemma TwiceInMultiset(q: seq<Msg>, i: nat, j: nat)
    requires i < j < |q| && q[i] == q[j]
    ensures multiset(q)[q[i]] >= 2
  {
    assert q == q[..i] + [q[i]] + q[i + 1..j] + [q[j]] + q[j + 1..];
  }

  lemma {:induction false} OnceInMultiset(q: seq<Msg>, m: Msg)
    requires forall i, j | 0 <= i < j < |q| :: q[i] != q[j]
    ensures multiset(q)[m] <= 1
  {
    if q != [] {
      var last := q[|q| - 1];
      OnceInMultiset(q[..|q| - 1], m);
      assert q == q[..|q| - 1] + [last];
      if m == last {
        assert m !in q[..|q| - 1];
        assert m !in multiset(q[..|q| - 1]);
      }
    }
  }

  /** Every message handed over answers a request, and no two the same. */
  lemma HandedAreAsked(s: Sys)
    requires AskedOk(s) && Accounted(s)
    ensures forall i | 0 <= i < |s.handed| :: Answers(s.handed[i].msg, s.streams, s.answer)
    ensures forall i, j | 0 <= i < j < |s.handed| :: !SameRequest(s.handed[i].msg, s.handed[j].msg)
  {
    hide Answers, SameRequest;
    var msgs := MsgsOf(s.handed);
    forall i | 0 <= i < |s.handed|
      ensures s.handed[i].msg in s.pushed && Answers(s.handed[i].msg, s.streams, s.answer)
    {
      assert msgs[i] in multiset(msgs);
      assert msgs[i] in multiset(s.pushed);
    }
    forall i, j | 0 <= i < j < |s.handed|
      ensures !SameRequest(s.handed[i].msg, s.handed[j].msg)
    {
      HandedTwice(s, i, j);
    }
  }

  lemma HandedTwice(s: Sys, i: nat, j: nat)
    requires AskedOk(s) && Accounted(s) && i < j < |s.handed| && s.handed[i].msg in s.pushed && s.handed[j].msg in s.pushed
    ensures !SameRequest(s.handed[i].msg, s.handed[j].msg)
  {
    hide Answers;
    var msgs := MsgsOf(s.handed);
    if msgs[i] == msgs[j] {
      TwiceInMultiset(msgs, i, j);
      forall a, b | 0 <= a < b < |s.pushed|
        ensures s.pushed[a] != s.pushed[b]
      {
        assert !SameRequest(s.pushed[a], s.pushed[b]);
      }
      OnceInMultiset(s.pushed, msgs[i]);
    }
  }
}
