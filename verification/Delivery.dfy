/**
 The server as one system of atomic steps: pooled connections that are checked out and returned
 (net/tiny_tcpconnectionpool.cxx, net/tiny_tcpconnection.cxx:12-68), the bytes they receive, parsed into
 requests that are stamped with the sequence number of their connection and answered by the thread pool
 (app/tiny_server.cxx:44-94), the send thread that drops stale replies, skips those whose connection is
 sending by events and hands the others to `send` (net/tiny_sendthread.cxx:76-120), and the recycle thread
 that closes connections after ten seconds (net/tiny_recythread.cxx:75-104).

 The send thread tests the stamp of a reply (net/tiny_sendthread.cxx:92) and hands it over later (:105),
 with no lock that would keep the connection object in its checkout: these are two steps.  `recycle` can
 be called again for a connection that is with the recycle thread already (net/tiny_poller.cxx:101-108
 delivers errors and hang-ups as read events even while reading is off); `doubled` records that.  The object
 is then queued twice, and the second time it is closed it may be free, or in another checkout.
 */
module Delivery {
  import opened Bytes
  import opened Codec
  import opened Stream
  import SendPath
  import Sweeping

  /** A reply on its way to connection object `conn`.  History: the request it answers is the one numbered
      `nth` of checkout `origin`. */
  datatype Msg = Msg(conn: nat, stamp: nat, rpt: Rpt, origin: nat, nth: nat)

  /** A reply handed to `send`, the checkout its object was in at that moment, and whether the object had
      been closed between the test of the stamp and then. */
  datatype Hand = Hand(msg: Msg, checkout: nat, late: bool)

  /** A pooled connection object.  `curSeq` is its sequence number; `since` is when it was given to the
      recycle thread.  History: `checkout` numbers the checkouts of the whole pool, and `failed` says
      that a direct send of this checkout ended in an unhandled error. */
  datatype Peer = Peer(conn: SendPath.Conn, curSeq: nat, readEnabled: bool, since: int, checkout: nat, failed: bool)

  /** An element of the recycle queue; `checkout` is history: the checkout in which `recycle` was called. */
  datatype Due = Due(conn: nat, checkout: nat)

  /** A connection closed by the recycle thread: the checkout in which `recycle` was called, and the one the
      object was in when it was closed. */
  datatype Close = Close(asked: nat, met: nat)

  /** `tasks`: replies in the hands of the thread pool, which answers a request `r` with `answer(r)`;
      `streams`: for every checkout so far, what has been parsed from the bytes given to the decode loop in it;
      `held`: the reply at the send thread's position has passed the test of its stamp; `crashed`: the recycle
      thread has closed an object that was free, through a null pointer to its pool.  History: whether the object
      of the held reply has been closed since the test; whether `recycle` has been called for a connection already
      queued; the connections closed; the bytes given to the decode loop in every checkout, and its object; which
      sequence number of which object belongs to which checkout; and the messages pushed, dropped as stale, handed
      over, and missed, that is handed to an object that was closed. */
  datatype Sys = Sys(
    peers: seq<Peer>, free: seq<nat>, streams: seq<Parsed>, tasks: set<Msg>, answer: Rpt -> Rpt,
    send: Sweeping.Sweeper<Msg>, held: bool, recy: Sweeping.Sweeper<Due>, crashed: bool,
    late: bool, doubled: bool, closes: seq<Close>,
    arrived: seq<seq<Byte>>, owners: seq<nat>, born: map<(nat, nat), nat>,
    pushed: seq<Msg>, dropped: seq<Msg>, handed: seq<Hand>, missed: seq<Msg>)

  datatype Step =
    | Accept
    | Receive(c: nat, batch: seq<Byte>)
    | PushReply(m: Msg)
    | SendMove(move: Sweeping.Move<Msg>)
    | TestItem
    | HandItem(outs: seq<SendPath.Outcome>)
    | WriteEvent(c: nat, outs: seq<SendPath.Outcome>)
    | Recycle(c: nat, now: int)
    | RecyMove(recyMove: Sweeping.Move<Due>)
    | RecyItem(now: int)

  const IDLE := SendPath.Conn(false, false, false, [], [], [])

  function Start(size: nat, answer: Rpt -> Rpt): Sys {
    Sys(seq(size, i => Peer(IDLE, 0, false, 0, 0, false)), seq(size, i => i), [], {}, answer,
        Sweeping.Sweeper([], 0, 0, Sweeping.Waiting), false, Sweeping.Sweeper([], 0, 0, Sweeping.Waiting), false,
        false, false, [], [], [], map[], [], [], [], [])
  }

  /** What the server's worker answers to any request: "recv ok, notify you", with type 1. */
  function Notice(request: Rpt): Rpt {
    Rpt(27, 1, [114, 101, 99, 118, 32, 111, 107, 44, 32, 110, 111, 116, 105, 102, 121, 32, 121, 111, 117])
  }

  /** Answers that fit a frame. */
  ghost predicate Framable(answer: Rpt -> Rpt) { forall r :: WellFormed(answer(r)) }

  lemma NoticeIsFramable()
    ensures Framable(Notice)
  {
    assert forall r :: |Notice(r).body| == 19;
  }

  predicate IsQuiet<T>(move: Sweeping.Move<T>) {
    move.Wait? || move.Test? || move.Aim? || move.Lock? || move.Unlock?
  }

  /** The reply at the send thread's position. */
  predicate AtItem(s: Sys) {
    && Sweeping.Enabled(s.send, Sweeping.Keep) && Sweeping.Enabled(s.send, Sweeping.Erase(true))
    && s.send.queue[s.send.pc.pos].conn < |s.peers|
  }

  /** The object is in the recycle queue. */
  predicate Queued(queue: seq<Due>, c: nat) { exists i :: 0 <= i < |queue| && queue[i].conn == c }

  /** Nothing is known of a program that has crashed: it makes no step. */
  predicate Enabled(s: Sys, step: Step) { !s.crashed && Possible(s, step) }

  predicate Possible(s: Sys, step: Step) {
    match step
    case Accept => s.free != [] && s.free[0] < |s.peers|
    case Receive(c, _) =>
      && c < |s.peers| && s.peers[c].conn.open
      && s.peers[c].checkout < |s.streams| == |s.arrived| && s.streams[s.peers[c].checkout].ending == Open
    case PushReply(m) => m in s.tasks && Sweeping.Enabled(s.send, Sweeping.Push(m))
    case SendMove(move) => IsQuiet(move) && Sweeping.Enabled(s.send, move)
    case TestItem => AtItem(s) && !s.held
    case HandItem(_) => AtItem(s) && s.held
    case WriteEvent(c, _) => c < |s.peers| && s.peers[c].conn.open && s.peers[c].conn.writeEnabled
    case Recycle(c, _) =>
      c < |s.peers| && s.peers[c].conn.open && Sweeping.Enabled(s.recy, Sweeping.Push(Due(c, s.peers[c].checkout)))
    case RecyMove(move) => IsQuiet(move) && Sweeping.Enabled(s.recy, move)
    case RecyItem(_) => Sweeping.Enabled(s.recy, Sweeping.Keep) && s.recy.queue[s.recy.pc.pos].conn < |s.peers|
  }

  /** `getOneTcpConnection`: the first free object is initialised. */
  function DoAccept(s: Sys): Sys
    requires Enabled(s, Accept)
  {
    var c := s.free[0];
    var n := s.peers[c].curSeq + 1;
    s.(peers := s.peers[c := Peer(SendPath.OPENED, n, true, s.peers[c].since, |s.owners|, false)], free := s.free[1..],
       streams := s.streams + [Parsed([], [], Open)], arrived := s.arrived + [[]], owners := s.owners + [c],
       born := s.born[(c, n) := |s.owners|])
  }

  /** The replies to the requests numbered from `from` on. */
  function Answered(answer: Rpt -> Rpt, c: nat, stamp: nat, k: nat, from: nat, requests: seq<Rpt>): set<Msg> {
    set i | from <= i < |requests| :: Msg(c, stamp, answer(requests[i]), k, i)
  }

  /** One more batch of bytes for the read callback: each request it completes becomes a task. */
  function DoReceive(s: Sys, c: nat, batch: seq<Byte>): Sys
    requires Enabled(s, Receive(c, batch))
  {
    var k := s.peers[c].checkout;
    var parsed := Feed(s.streams[k], batch);
    s.(streams := s.streams[k := parsed], arrived := s.arrived[k := s.arrived[k] + batch],
       tasks := s.tasks + Answered(s.answer, c, s.peers[c].curSeq, k, |s.streams[k].rpts|, parsed.rpts))
  }

  /** The test of the stamp: a stale reply is dropped. */
  function DoTestItem(s: Sys): Sys
    requires Enabled(s, TestItem)
  {
    var m := s.send.queue[s.send.pc.pos];
    if s.peers[m.conn].curSeq != m.stamp then
      s.(send := Sweeping.Next(s.send, Sweeping.Erase(true)), dropped := s.dropped + [m])
    else s.(held := true, late := false)
  }

  /** What `send` has answered for the reply that passed the test: refused, it stays in the queue. */
  function DoHandOver(s: Sys, conn: SendPath.Conn, ret: int, failed: bool): Sys
    requires AtItem(s)
  {
    var m := s.send.queue[s.send.pc.pos];
    var p := s.peers[m.conn];
    var t := s.(held := false, send := Sweeping.Next(s.send, if ret == -1 then Sweeping.Keep else Sweeping.Erase(true)));
    if ret == -1 then t
    else if !p.conn.open then t.(missed := s.missed + [m])
    else
      t.(handed := s.handed + [Hand(m, p.checkout, s.late)],
         peers := s.peers[m.conn := p.(conn := conn, failed := p.failed || failed)])
  }

  function DoHandItem(s: Sys, outs: seq<SendPath.Outcome>): Sys
    requires AtItem(s)
  {
    var m := s.send.queue[s.send.pc.pos];
    var frame := Frame(m.rpt);
    var (conn, ret) := SendPath.Send(s.peers[m.conn].conn, frame, outs);
    DoHandOver(s, conn, ret, SendPath.ISend(|frame|, outs).ending == SendPath.Error)
  }

  /** One element of the recycle sweep: a connection given in less than ten seconds ago stays; any other
      is closed, which resets it and returns it to the pool it is checked out of. */
  function DoRecyItem(s: Sys, now: int): Sys
    requires Enabled(s, RecyItem(now))
  {
    var due := s.recy.queue[s.recy.pc.pos];
    var c := due.conn;
    var p := s.peers[c];
    if now - p.since < 10_000 then s.(recy := Sweeping.Next(s.recy, Sweeping.Keep))
    else if !p.conn.open then s.(crashed := true)
    else
      s.(recy := Sweeping.Next(s.recy, Sweeping.Erase(false)), free := s.free + [c],
         peers := s.peers[c := p.(conn := p.conn.(open := false, eventMode := false, writeEnabled := false),
                                  curSeq := p.curSeq + 1)],
         late := s.late || HoldsReplyFor(s, c), closes := s.closes + [Close(due.checkout, p.checkout)])
  }

  /** The send thread holds a tested reply for object `c`. */
  predicate HoldsReplyFor(s: Sys, c: nat) {
    s.held && s.send.pc.At? && s.send.pc.pos < |s.send.queue| && s.send.queue[s.send.pc.pos].conn == c
  }

  function Next(s: Sys, step: Step): Sys {
    if !Enabled(s, step) then s
    else
      match step
      case Accept => DoAccept(s)
      case Receive(c, batch) => DoReceive(s, c, batch)
      case PushReply(m) =>
        s.(tasks := s.tasks - {m}, send := Sweeping.Next(s.send, Sweeping.Push(m)), pushed := s.pushed + [m])
      case SendMove(move) => s.(send := Sweeping.Next(s.send, move))
      case TestItem => DoTestItem(s)
      case HandItem(outs) => DoHandItem(s, outs)
      case WriteEvent(c, outs) =>
        s.(peers := s.peers[c := s.peers[c].(conn := SendPath.HandleWrite(s.peers[c].conn, outs))])
      case Recycle(c, now) =>
        s.(recy := Sweeping.Next(s.recy, Sweeping.Push(Due(c, s.peers[c].checkout))),
           doubled := s.doubled || Queued(s.recy.queue, c),
           peers := s.peers[c := s.peers[c].(readEnabled := false, since := now)])
      case RecyMove(move) => s.(recy := Sweeping.Next(s.recy, move))
      case RecyItem(now) => DoRecyItem(s, now)
  }

  function Run(s: Sys, steps: seq<Step>): Sys
    decreases |steps|
  {
    if steps == [] then s else Run(Next(s, steps[0]), steps[1..])
  }

  // ---- The pool ----

  predicate NoDup(q: seq<nat>) { forall i, j | 0 <= i < j < |q| :: q[i] != q[j] }

  /** Free and checked-out objects partition the pool, the free list holds no object twice, and the sequence
      number is odd exactly while an object is checked out. */
  ghost predicate PoolOk(peers: seq<Peer>, free: seq<nat>) {
    && NoDup(free)
    && (forall i | 0 <= i < |free| :: free[i] < |peers|)
    && (forall c | 0 <= c < |peers| :: c in free <==> !peers[c].conn.open)
    && (forall c | 0 <= c < |peers| :: peers[c].conn.open <==> peers[c].curSeq % 2 == 1)
  }

  /** Checkout `k` has been ended by one of the closes. */
  predicate Ended(closes: seq<Close>, k: nat) { exists i :: 0 <= i < |closes| && closes[i].met == k }

  /** Checkout `k` is in progress. */
  predicate Current(s: Sys, k: nat) {
    k < |s.owners| && s.owners[k] < |s.peers| && s.peers[s.owners[k]].conn.open && s.peers[s.owners[k]].checkout == k
  }

  /** Every checkout is in progress until one close ends it, and a close ends the checkout in which its `recycle`
      was called exactly if no earlier close has ended that one. */
  ghost predicate ClosesOk(s: Sys) {
    && (forall i | 0 <= i < |s.recy.queue| :: DueOk(s.recy.queue[i], s.owners))
    && (forall k | 0 <= k < |s.owners| :: s.owners[k] < |s.peers| && (Ended(s.closes, k) <==> !Current(s, k)))
    && (forall c | 0 <= c < |s.peers| && s.peers[c].conn.open ::
          s.peers[c].checkout < |s.owners| && s.owners[s.peers[c].checkout] == c)
    && (forall i | 0 <= i < |s.closes| :: s.closes[i].met < |s.owners|)
    && (forall i | 0 <= i < |s.closes| :: OwnIfFirst(s.closes, i))
  }

  predicate DueOk(due: Due, owners: seq<nat>) { due.checkout < |owners| && owners[due.checkout] == due.conn }

  predicate OwnIfFirst(closes: seq<Close>, i: nat)
    requires i < |closes|
  {
    closes[i].met == closes[i].asked <==> !Ended(closes[..i], closes[i].asked)
  }

  /** While `recycle` has not been called for a connection already queued: no object is queued twice, an object is
      queued exactly while it is checked out and no longer read, in the checkout in which `recycle` was called,
      and every close has ended that checkout. */
  ghost predicate QueueOk(s: Sys) {
    && !s.crashed
    && (forall i, j | 0 <= i < j < |s.recy.queue| :: s.recy.queue[i].conn != s.recy.queue[j].conn)
    && (forall c | 0 <= c < |s.peers| :: Queued(s.recy.queue, c) <==> s.peers[c].conn.open && !s.peers[c].readEnabled)
    && (forall i | 0 <= i < |s.recy.queue| :: InPlace(s.recy.queue[i], s.peers))
    && (forall i | 0 <= i < |s.closes| :: s.closes[i].met == s.closes[i].asked)
  }

  predicate InPlace(due: Due, peers: seq<Peer>) { due.conn < |peers| && peers[due.conn].checkout == due.checkout }

  /** A stamp on an object names one checkout. */
  ghost predicate Stamped(m: Msg, peers: seq<Peer>, born: map<(nat, nat), nat>) {
    m.conn < |peers| && (m.conn, m.stamp) in born && born[(m.conn, m.stamp)] == m.origin && WellFormed(m.rpt)
  }

  /** `checkouts`: how many there have been. */
  ghost predicate BornOk(peers: seq<Peer>, born: map<(nat, nat), nat>, checkouts: nat) {
    && (forall k | k in born :: k.0 < |peers| && k.1 <= peers[k.0].curSeq && k.1 % 2 == 1 && born[k] < checkouts)
    && (forall c | 0 <= c < |peers| && peers[c].conn.open :: (c, peers[c].curSeq) in born && born[(c, peers[c].curSeq)] == peers[c].checkout)
  }

  ghost predicate StampsOk(s: Sys) {
    && BornOk(s.peers, s.born, |s.owners|)
    && (forall m | m in s.tasks :: Stamped(m, s.peers, s.born))
    && (forall i | 0 <= i < |s.send.queue| :: Stamped(s.send.queue[i], s.peers, s.born))
  }

  /** While a tested reply is held, its object is in the checkout that received the request exactly if it has
      not been closed since. */
  ghost predicate HeldOk(s: Sys) {
    s.held ==>
      && AtItem(s)
      && var m := s.send.queue[s.send.pc.pos]; var p := s.peers[m.conn];
         if s.late then p.conn.open ==> p.checkout != m.origin
         else p.curSeq == m.stamp && p.conn.open && p.checkout == m.origin
  }

  /** What was handed over during checkout `k`, in order. */
  function Given(handed: seq<Hand>, k: nat): seq<Hand> {
    if handed == [] then []
    else
      var last := handed[|handed| - 1];
      var before := Given(handed[..|handed| - 1], k);
      if last.checkout == k then before + [last] else before
  }

  function RptsOf(hands: seq<Hand>): seq<Rpt> { seq(|hands|, i requires 0 <= i < |hands| => hands[i].msg.rpt) }

  predicate FramesOf(frames: seq<seq<Byte>>, rs: seq<Rpt>) {
    |frames| == |rs| && forall i | 0 <= i < |rs| :: frames[i] == Frame(rs[i])
  }

  ghost predicate PeerStream(c: nat, p: Peer, handed: seq<Hand>, owners: seq<nat>) {
    p.conn.open ==>
      && p.checkout < |owners| && owners[p.checkout] == c
      && FramesOf(p.conn.accepted, RptsOf(Given(handed, p.checkout)))
      && (!p.failed ==> SendPath.Ok(p.conn))
  }

  /** A reply is handed over in the checkout that received its request exactly if its object was not closed
      between the test and the hand-over. */
  predicate HandOk(h: Hand, checkouts: nat) {
    && (h.checkout == h.msg.origin <==> !h.late)
    && h.checkout < checkouts && h.msg.origin < checkouts && WellFormed(h.msg.rpt)
  }

  ghost predicate HandsOk(handed: seq<Hand>, checkouts: nat) {
    forall i | 0 <= i < |handed| :: HandOk(handed[i], checkouts)
  }

  ghost predicate StreamsOk(s: Sys) {
    && (forall c | 0 <= c < |s.peers| :: PeerStream(c, s.peers[c], s.handed, s.owners))
    && HandsOk(s.handed, |s.owners|)
  }

  function MsgsOf(handed: seq<Hand>): seq<Msg> { seq(|handed|, i requires 0 <= i < |handed| => handed[i].msg) }

  /** Every message pushed is in exactly one of: queued, dropped as stale, handed over, missed. */
  ghost predicate Accounted(s: Sys) {
    multiset(s.pushed) == multiset(s.send.queue) + multiset(s.dropped) + multiset(MsgsOf(s.handed)) + multiset(s.missed)
  }

  // ---- Requests ----

  /** However the bytes were given to the decode loop, the requests of a checkout are those of one batch
      parse of them. */
  ghost predicate ReadOk(s: Sys) {
    && |s.streams| == |s.arrived| == |s.owners|
    && forall k | 0 <= k < |s.streams| :: s.streams[k] == Parse(s.arrived[k])
  }

  /** The message answers the request it names. */
  predicate Answers(m: Msg, streams: seq<Parsed>, answer: Rpt -> Rpt) {
    m.origin < |streams| && m.nth < |streams[m.origin].rpts| && m.rpt == answer(streams[m.origin].rpts[m.nth])
  }

  predicate SameRequest(m: Msg, n: Msg) { m.origin == n.origin && m.nth == n.nth }

  /** Every message answers a request, and no two the same. */
  ghost predicate AskedOk(s: Sys) {
    && (forall m | m in s.tasks :: Answers(m, s.streams, s.answer))
    && (forall i | 0 <= i < |s.pushed| :: Answers(s.pushed[i], s.streams, s.answer))
    && (forall m, n | m in s.tasks && n in s.tasks && SameRequest(m, n) :: m == n)
    && (forall i, j | 0 <= i < j < |s.pushed| :: !SameRequest(s.pushed[i], s.pushed[j]))
    && (forall m, i | m in s.tasks && 0 <= i < |s.pushed| :: !SameRequest(m, s.pushed[i]))
  }

  /** What holds in every run. */
  ghost predicate Good(s: Sys) {
    && Framable(s.answer) && ReadOk(s) && AskedOk(s)
    && PoolOk(s.peers, s.free) && ClosesOk(s) && StampsOk(s) && HeldOk(s) && StreamsOk(s) && Accounted(s)
    && Sweeping.Awake(s.send) && Sweeping.Counted(s.send) && Sweeping.Awake(s.recy)
  }
}
