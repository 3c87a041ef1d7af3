/**
 The send path of one connection (net/tiny_tcpconnection.cxx:125-210): direct writes while the socket
 takes them, and event-driven writes from the write buffer once it does not.

 Two lines do not do what the code around them relies on: `isend` keeps the result of `write` in an
 unsigned variable (:148), so a failed write counts as a huge success, and it enables read events
 where write events are meant (:166), in a branch that the first of the two makes unreachable.
 `ISend` and `Send` are the members with both repaired; `SendReading` has only the first repaired.
 `UnsignedSend` is the code as it stands.
 */
module SendPath {
  import opened Bytes
  import opened Common

  /** What one `write` call does: it takes up to k bytes, or fails. */
  datatype Outcome = Wrote(k: nat) | Interrupted | WouldBlock | Failed

  /** How `isend` ends: everything written, the socket full, or an error it does not handle. */
  datatype Ending = Done | Blocked | Error

  datatype Sent = Sent(n: nat, ending: Ending)

  /** `isend` for `len` bytes; a socket that is offered no further outcome is full.  A write of zero bytes
      falls through to the error branch. */
  function ISend(len: nat, outs: seq<Outcome>): (r: Sent)
    ensures r.n <= len
    ensures r.ending == Done <==> r.n == len
    decreases |outs|
  {
    if len == 0 then Sent(0, Done)
    else if outs == [] then Sent(0, Blocked)
    else
      match outs[0]
      case Wrote(k) =>
        if k == 0 then Sent(0, Error)
        else
          var r := ISend(len - Min(k, len), outs[1..]);
          Sent(Min(k, len) + r.n, r.ending)
      case Interrupted => ISend(len, outs[1..])
      case WouldBlock => Sent(0, Blocked)
      case Failed => Sent(0, Error)
  }

  /** A call after which `isend` gives up. */
  predicate GivesUp(o: Outcome) { o.WouldBlock? || o.Failed? || o == Wrote(0) }

  /** How many calls come before the first after which `isend` gives up. */
  function CallsBefore(outs: seq<Outcome>): (n: nat)
    ensures n <= |outs| && (n < |outs| ==> GivesUp(outs[n])) && forall i | 0 <= i < n :: !GivesUp(outs[i])
  {
    if outs == [] || GivesUp(outs[0]) then 0 else 1 + CallsBefore(outs[1..])
  }

  /** The bytes that the calls take. */
  function Taken(outs: seq<Outcome>): nat {
    if outs == [] then 0 else (if outs[0].Wrote? then outs[0].k else 0) + Taken(outs[1..])
  }

  /** `isend` counts exactly the bytes taken before it gives up, interrupted calls being made again; it ends
      normally if they are enough, with a full socket if it gave up on that, and otherwise with an error. */
  lemma {:induction false} ISendCounts(len: nat, outs: seq<Outcome>)
    ensures var r, n := ISend(len, outs), CallsBefore(outs);
            && r.n == Min(len, Taken(outs[..n]))
            && r.ending == if len <= Taken(outs[..n]) then Done
                           else if n == |outs| || outs[n].WouldBlock? then Blocked
                           else Error
    decreases |outs|
  {
    var n := CallsBefore(outs);
    if n > 0 {
      assert outs[..n][1..] == outs[1..][..n - 1];
      ISendCounts(if outs[0].Wrote? then len - Min(outs[0].k, len) else len, outs[1..]);
    }
  }

  /** `open`: the channel exists.  `wire` and `accepted` are the bytes written and the frames taken on
      since the connection was opened. */
  datatype Conn = Conn(
    open: bool, eventMode: bool, writeEnabled: bool, pending: seq<Byte>, wire: seq<Byte>, accepted: seq<seq<Byte>>)

  const OPENED := Conn(true, false, false, [], [], [])

  /** A full socket switches to event-driven sending, unless write events are enabled already. */
  function AfterWrite(c: Conn, bytes: seq<Byte>, ending: Ending): Conn {
    var d := c.(wire := c.wire + bytes);
    if ending == Blocked && !c.writeEnabled then d.(eventMode := true, writeEnabled := true) else d
  }

  /** `send`: the new connection state and the result 0 (sent), 1 (the rest is buffered) or -1 (refused,
      event-driven sending is under way). */
  function Send(c: Conn, frame: seq<Byte>, outs: seq<Outcome>): (Conn, int) {
    if !c.open then (c, 0)
    else if c.eventMode then (c, -1)
    else
      var r := ISend(|frame|, outs);
      var d := AfterWrite(c, frame[..r.n], r.ending).(accepted := c.accepted + [frame]);
      if r.n < |frame| then (d.(pending := d.pending + frame[r.n..]), 1) else (d, 0)
  }

  /** What a direct send leaves behind. */
  lemma DirectSend(c: Conn, frame: seq<Byte>, outs: seq<Outcome>)
    requires c.open && !c.eventMode
    ensures var r, d := ISend(|frame|, outs), Send(c, frame, outs).0;
            && d.open && d.pending == c.pending + frame[r.n..]
            && (if r.ending == Blocked && !c.writeEnabled then d.eventMode && d.writeEnabled
                else d.eventMode == c.eventMode && d.writeEnabled == c.writeEnabled)
            && Send(c, frame, outs).1 == if r.n == |frame| then 0 else 1
  {
  }

  /** `tcpHandleWrite`, the handler of a write event. */
  function HandleWrite(c: Conn, outs: seq<Outcome>): Conn {
    if c.pending == [] then c
    else
      var r := ISend(|c.pending|, outs);
      var d := AfterWrite(c, c.pending[..r.n], r.ending).(pending := c.pending[r.n..]);
      if d.pending == [] && d.writeEnabled then d.(eventMode := false, writeEnabled := false) else d
  }

  /** What a write event leaves behind. */
  lemma HandledWrite(c: Conn, outs: seq<Outcome>)
    ensures c.pending == [] ==> HandleWrite(c, outs) == c
    ensures c.pending != [] ==>
              var r, d := ISend(|c.pending|, outs), HandleWrite(c, outs);
              && d.open == c.open && d.pending == c.pending[r.n..]
              && var (e, w) := if r.ending == Blocked && !c.writeEnabled then (true, true) else (c.eventMode, c.writeEnabled);
                 if d.pending == [] && w then !d.eventMode && !d.writeEnabled else d.eventMode == e && d.writeEnabled == w
  {
  }

  /** Event mode on, write events enabled and bytes buffered are one and the same; what has gone out,
      followed by the buffer, is what was accepted, in the order of acceptance. */
  ghost predicate Ok(c: Conn) {
    && c.eventMode == c.writeEnabled == (c.pending != [])
    && c.wire + c.pending == Concat(c.accepted)
  }

  /** `send` keeps that exactly unless the write ends in an unhandled error (or a write of zero bytes)
      with bytes left over: those are buffered with event mode off. */
  lemma SendOkExact(c: Conn, frame: seq<Byte>, outs: seq<Outcome>)
    requires Ok(c) && c.open
    ensures Ok(Send(c, frame, outs).0) <==> c.eventMode || ISend(|frame|, outs).ending != Error
  {
    if !c.eventMode {
      var r := ISend(|frame|, outs);
      ConcatSnoc(c.accepted, frame);
      assert c.wire == c.wire + c.pending;
      assert frame[..r.n] + frame[r.n..] == frame;
      Assoc(c.wire, frame[..r.n], frame[r.n..]);
      var d := Send(c, frame, outs).0;
      assert d.wire + d.pending == c.wire + frame;
    }
  }

  /** The answer of `send`: -1 if event-driven sending is under way, and nothing changes; 1 if part of the frame
      is left in the buffer, and event-driven sending has begun exactly if the socket was full; 0 if the whole
      frame is on the wire, but also, with nothing sent, on a connection that has no channel. */
  lemma SendAnswers(c: Conn, frame: seq<Byte>, outs: seq<Outcome>)
    requires Ok(c)
    ensures var (d, ret) := Send(c, frame, outs);
            && ret in {-1, 0, 1}
            && (ret == -1 <==> c.open && c.eventMode) && (ret == -1 ==> d == c)
            && (ret == 1 ==> d.pending != [] && d.pending == frame[|frame| - |d.pending|..])
            && (ret == 1 ==> (d.eventMode <==> ISend(|frame|, outs).ending == Blocked))
            && (ret == 0 ==> (d.wire == c.wire + frame && d.pending == c.pending <==> c.open || frame == []))
  {
    if c.open && !c.eventMode {
      var r := ISend(|frame|, outs);
      assert r.n == |frame| ==> frame[..r.n] == frame;
    } else if frame == [] {
      assert c.wire + frame == c.wire;
    }
  }

  lemma HandleWriteOk(c: Conn, outs: seq<Outcome>)
    requires Ok(c)
    ensures Ok(HandleWrite(c, outs))
  {
    if c.pending != [] {
      var r := ISend(|c.pending|, outs);
      assert c.pending[..r.n] + c.pending[r.n..] == c.pending;
      Assoc(c.wire, c.pending[..r.n], c.pending[r.n..]);
    }
  }

  /** The bytes of a direct send that reach the wire are those that the write calls took before giving up; the rest
      goes behind what is buffered. */
  lemma SendSends(c: Conn, frame: seq<Byte>, outs: seq<Outcome>)
    requires c.open && !c.eventMode
    ensures var d, n := Send(c, frame, outs).0, Min(|frame|, Taken(outs[..CallsBefore(outs)]));
            && d.wire == c.wire + frame[..n] && d.pending == c.pending + frame[n..]
            && d.accepted == c.accepted + [frame] && d.open
  {
    ISendCounts(|frame|, outs);
    var n := ISend(|frame|, outs).n;
    if n == |frame| {
      assert c.pending + frame[n..] == c.pending;
    }
  }

  /** A write event sends as many of the buffered bytes as the calls took before giving up, and ends event-driven
      sending exactly if they were all. */
  lemma WriteEventSends(c: Conn, outs: seq<Outcome>)
    requires Ok(c)
    ensures var d, n := HandleWrite(c, outs), Min(|c.pending|, Taken(outs[..CallsBefore(outs)]));
            && d.wire == c.wire + c.pending[..n] && d.pending == c.pending[n..]
            && d.accepted == c.accepted && d.open == c.open
            && (d.eventMode <==> n < |c.pending|) && d.writeEnabled == d.eventMode
  {
    ISendCounts(|c.pending|, outs);
    if c.pending == [] {
      assert c.wire + c.pending[..0] == c.wire;
    }
  }

  // ---- Every interleaving of sends and write events ----

  datatype Step = DoSend(frame: seq<Byte>, outs: seq<Outcome>) | WriteEvent(outs: seq<Outcome>)

  /** The poller delivers write events only while they are enabled. */
  function Next(c: Conn, step: Step): Conn {
    match step
    case DoSend(frame, outs) => Send(c, frame, outs).0
    case WriteEvent(outs) => if c.writeEnabled then HandleWrite(c, outs) else c
  }

  function Run(c: Conn, steps: seq<Step>): Conn
    decreases |steps|
  {
    if steps == [] then c else Run(Next(c, steps[0]), steps[1..])
  }

  predicate NoHardError(steps: seq<Step>) {
    forall i | 0 <= i < |steps| && steps[i].DoSend? :: ISend(|steps[i].frame|, steps[i].outs).ending != Error
  }

  lemma {:induction false} RunOk(c: Conn, steps: seq<Step>)
    requires Ok(c) && c.open && NoHardError(steps)
    ensures Ok(Run(c, steps)) && Run(c, steps).open
    decreases |steps|
  {
    if steps != [] {
      match steps[0] {
        case DoSend(frame, outs) => SendOkExact(c, frame, outs);
        case WriteEvent(outs) => HandleWriteOk(c, outs);
      }
      RunOk(Next(c, steps[0]), steps[1..]);
    }
  }

  // ---- The next defect, should only the first be repaired: read events where write events are meant ----

  function AfterWriteReading(c: Conn, bytes: seq<Byte>, ending: Ending): Conn {
    var d := c.(wire := c.wire + bytes);
    if ending == Blocked && !c.writeEnabled then d.(eventMode := true) else d
  }

  function SendReading(c: Conn, frame: seq<Byte>, outs: seq<Outcome>): (Conn, int) {
    if !c.open then (c, 0)
    else if c.eventMode then (c, -1)
    else
      var r := ISend(|frame|, outs);
      var d := AfterWriteReading(c, frame[..r.n], r.ending).(accepted := c.accepted + [frame]);
      if r.n < |frame| then (d.(pending := d.pending + frame[r.n..]), 1) else (d, 0)
  }

  function NextReading(c: Conn, step: Step): Conn {
    match step
    case DoSend(frame, outs) => SendReading(c, frame, outs).0
    case WriteEvent(outs) => if c.writeEnabled then HandleWrite(c, outs) else c
  }

  function RunReading(c: Conn, steps: seq<Step>): Conn
    decreases |steps|
  {
    if steps == [] then c else RunReading(NextReading(c, steps[0]), steps[1..])
  }

  /** With the result of `write` signed, enabling read events changes `send` exactly if the socket is full. */
  lemma SendReadingExact(c: Conn, frame: seq<Byte>, outs: seq<Outcome>)
    requires Ok(c) && c.open
    ensures SendReading(c, frame, outs) == Send(c, frame, outs) <==> c.eventMode || ISend(|frame|, outs).ending != Blocked
  {
  }

  /** With the result of `write` signed, but read events enabled in place of write events: once the socket
      has been full the connection never sends again.  Whatever is asked of it, it stays as it is with
      bytes in its buffer. */
  lemma {:induction false} BlockedOnceStaysBlocked(c: Conn, frame: seq<Byte>, outs: seq<Outcome>, steps: seq<Step>)
    requires Ok(c) && c.open && !c.eventMode && ISend(|frame|, outs).ending == Blocked
    ensures var d := SendReading(c, frame, outs).0;
            d.pending != [] && RunReading(d, steps) == d
  {
    StuckStaysStuck(SendReading(c, frame, outs).0, steps);
  }

  lemma {:induction false} StuckStaysStuck(c: Conn, steps: seq<Step>)
    requires c.open && c.eventMode && !c.writeEnabled
    ensures RunReading(c, steps) == c
    decreases |steps|
  {
    if steps != [] {
      StuckStaysStuck(c, steps[1..]);
    }
  }
}
