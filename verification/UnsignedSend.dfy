/**
 The send path as it stands (net/tiny_tcpconnection.cxx:125-210): `isend` keeps the result of `write` in
 an unsigned variable (:148), so a failed write is a success of 2^64 - 1 bytes, the tests for an
 interrupted call and for a full socket (:156-169) are never true, and event-driven sending is never
 entered.  The count that `isend` returns is then consumed from the buffer modulo 2^64.
 */
module UnsignedSend {
  import opened Bytes
  import opened Common
  import opened SendPath

  // ---- isend ----

  const WRAP: nat := 0x1_0000_0000_0000_0000

  /** `n`: the value returned; `wire`: the bytes written; `used`: how many write calls were made; `done`:
      whether the loop has ended within the outcomes given. */
  datatype Raw = Raw(n: nat, wire: seq<Byte>, used: nat, done: bool)

  /** Adding 2^64 - 1 modulo 2^64. */
  function AddMinusOne(n: nat): nat
    requires n < WRAP
  {
    if n == 0 then WRAP - 1 else n - 1
  }

  /** The loop from `nsend == n`: -1 converts to 2^64 - 1, which is above 0 and is added to `nsend`. */
  function ISendAsWritten(data: seq<Byte>, n: nat, outs: seq<Outcome>): (r: Raw)
    requires n < WRAP && |data| < WRAP
    ensures r.used <= |outs| && r.n < WRAP
    ensures n <= |data| ==> r.n <= |data| || r.n == WRAP - 1
    decreases |outs|
  {
    if |data| <= n then Raw(n, [], 0, true)
    else if outs == [] then Raw(n, [], 0, false)
    else
      match outs[0]
      case Wrote(k) =>
        if k == 0 then Raw(n, [], 1, true)
        else
          var w := Min(k, |data| - n);
          var r := ISendAsWritten(data, n + w, outs[1..]);
          r.(wire := data[n..n + w] + r.wire, used := r.used + 1)
      case _ =>
        var r := ISendAsWritten(data, AddMinusOne(n), outs[1..]);
        r.(used := r.used + 1)
  }

  /** One write call of the loop. */
  lemma ISendUnfold(data: seq<Byte>, n: nat, outs: seq<Outcome>)
    requires n < |data| < WRAP && outs != []
    ensures outs[0] == Wrote(0) ==> ISendAsWritten(data, n, outs) == Raw(n, [], 1, true)
    ensures outs[0].Wrote? && outs[0].k > 0 ==>
              var w := Min(outs[0].k, |data| - n);
              var r := ISendAsWritten(data, n + w, outs[1..]);
              ISendAsWritten(data, n, outs) == r.(wire := data[n..n + w] + r.wire, used := r.used + 1)
    ensures !outs[0].Wrote? ==>
              var r := ISendAsWritten(data, AddMinusOne(n), outs[1..]);
              ISendAsWritten(data, n, outs) == r.(used := r.used + 1)
  {
  }

  /** Where the loop has ended, and where the outcomes have. */
  lemma ISendEnds(data: seq<Byte>, n: nat, outs: seq<Outcome>)
    requires n < WRAP && |data| < WRAP
    ensures |data| <= n ==> ISendAsWritten(data, n, outs) == Raw(n, [], 0, true)
    ensures n < |data| && outs == [] ==> ISendAsWritten(data, n, outs) == Raw(n, [], 0, false)
  {
  }

  predicate NoFailure(outs: seq<Outcome>) {
    forall o | o in outs :: o.Wrote?
  }

  /** The value returned is the number of bytes written, and those are the next bytes of `data`. */
  predicate Faithful(data: seq<Byte>, n: nat, r: Raw) {
    n <= r.n <= |data| && r.wire == data[n..r.n]
  }

  /** More is reported than was given, or more was written than is reported. */
  predicate Excess(data: seq<Byte>, n: nat, r: Raw) {
    r.n > |data| || |r.wire| > r.n - n
  }

  /** As written, `isend` reports what it has put on the wire exactly when no write call it makes fails;
      otherwise it reports more than it was given, or bytes have been sent twice. */
  lemma {:induction false} ISendAsWrittenExact(data: seq<Byte>, n: nat, outs: seq<Outcome>)
    requires n <= |data| < WRAP - 1
    requires ISendAsWritten(data, n, outs).done
    ensures var r := ISendAsWritten(data, n, outs);
            if NoFailure(outs[..r.used]) then Faithful(data, n, r) else Excess(data, n, r)
    decreases |outs|
  {
    hide ISendAsWritten, Faithful, Excess, NoFailure;
    Stopped(data, n);
    ISendEnds(data, n, outs);
    if n < |data| {
      ISendUnfold(data, n, outs);
      match outs[0]
      case Wrote(k) =>
        if k == 0 {
          NoFailureCons(outs, 0);
        } else {
          var w := Min(k, |data| - n);
          var s := ISendAsWritten(data, n + w, outs[1..]);
          ISendAsWrittenExact(data, n + w, outs[1..]);
          PartWritten(data, n, w, s);
          NoFailureCons(outs, s.used);
        }
      case _ =>
        var s := ISendAsWritten(data, AddMinusOne(n), outs[1..]);
        NoFailureCons(outs, s.used);
        if n > 0 {
          ISendAsWrittenExact(data, n - 1, outs[1..]);
        } else {
          ISendEnds(data, WRAP - 1, outs[1..]);
        }
        WriteFailed(data, n, s);
    } else {
      NoFailureNone(outs);
    }
  }

  function Failures(outs: seq<Outcome>): nat {
    if outs == [] then 0 else Tally(!outs[0].Wrote?) + Failures(outs[1..])
  }

  /** What has been written after the calls `called`: what they took, as far as there is more to write, each
      failed call making room for one byte more. */
  function Written(data: seq<Byte>, n: nat, called: seq<Outcome>): int {
    Min(Taken(called), |data| - n + Failures(called))
  }

  /** The count, whatever the calls answer: the bytes written, less one for every failed call, modulo 2^64; and the
      loop has ended if that is no longer below the length, or the last call wrote nothing. */
  predicate Counted(data: seq<Byte>, n: nat, outs: seq<Outcome>, r: Raw)
    requires r.used <= |outs|
  {
    var called := outs[..r.used];
    var net := n + Written(data, n, called) - Failures(called);
    && |r.wire| == Written(data, n, called)
    && net >= -1 && r.n == (if net == -1 then WRAP - 1 else net)
    && (r.done <==> r.n >= |data| || (r.used > 0 && called[r.used - 1] == Wrote(0)))
    && (forall i | 0 <= i < r.used - 1 :: called[i] != Wrote(0))
    && (!r.done ==> r.used == |outs|)
  }

  lemma {:induction false} ISendCountsAsWritten(data: seq<Byte>, n: nat, outs: seq<Outcome>)
    requires n <= |data| < WRAP - 1
    ensures Counted(data, n, outs, ISendAsWritten(data, n, outs))
    decreases |outs|
  {
    hide ISendAsWritten, Counted;
    ISendEnds(data, n, outs);
    if n == |data| || outs == [] {
      CountedNone(data, n, outs);
    } else {
      ISendUnfold(data, n, outs);
      match outs[0]
      case Wrote(k) =>
        if k == 0 {
          CountedLast(data, n, outs);
        } else {
          ISendCountsAsWritten(data, n + Min(k, |data| - n), outs[1..]);
          ISendEnds(data, n + Min(k, |data| - n), outs[1..]);
          CountedWrote(data, n, outs, ISendAsWritten(data, n + Min(k, |data| - n), outs[1..]));
        }
      case _ =>
        if n > 0 {
          ISendCountsAsWritten(data, n - 1, outs[1..]);
          CountedFailed(data, n, outs, ISendAsWritten(data, n - 1, outs[1..]));
        } else {
          ISendEnds(data, WRAP - 1, outs[1..]);
          CountedLast(data, n, outs);
        }
    }
  }

  lemma CountedNone(data: seq<Byte>, n: nat, outs: seq<Outcome>)
    requires n <= |data| && (n == |data| || outs == [])
    ensures Counted(data, n, outs, Raw(n, [], 0, n == |data|))
  {
  }

  /** A call that ends the loop: nothing was written, or the count has wrapped. */
  lemma CountedLast(data: seq<Byte>, n: nat, outs: seq<Outcome>)
    requires n < |data| < WRAP - 1 && outs != []
    ensures outs[0] == Wrote(0) ==> Counted(data, n, outs, Raw(n, [], 1, true))
    ensures !outs[0].Wrote? && n == 0 ==> Counted(data, n, outs, Raw(WRAP - 1, [], 1, true))
  {
    OneCall(outs, 0);
  }

  lemma OneCall(outs: seq<Outcome>, m: nat)
    requires m < |outs|
    ensures Taken(outs[..m + 1]) == (if outs[0].Wrote? then outs[0].k else 0) + Taken(outs[1..][..m])
    ensures Failures(outs[..m + 1]) == Tally(!outs[0].Wrote?) + Failures(outs[1..][..m])
    ensures Taken(outs[..0]) == 0 && Failures(outs[..0]) == 0
    ensures outs[..m + 1] == [outs[0]] + outs[1..][..m]
  {
    assert outs[..m + 1][1..] == outs[1..][..m];
  }

  lemma CountedWrote(data: seq<Byte>, n: nat, outs: seq<Outcome>, r: Raw)
    requires n < |data| < WRAP - 1 && outs != [] && outs[0].Wrote? && outs[0].k > 0 && r.used <= |outs| - 1
    requires Counted(data, n + Min(outs[0].k, |data| - n), outs[1..], r)
    requires outs[0].k >= |data| - n ==> r == Raw(|data|, [], 0, true)
    ensures var w := Min(outs[0].k, |data| - n);
            Counted(data, n, outs, r.(wire := data[n..n + w] + r.wire, used := r.used + 1))
  {
    OneCall(outs, r.used);
  }

  lemma CountedFailed(data: seq<Byte>, n: nat, outs: seq<Outcome>, r: Raw)
    requires 0 < n < |data| < WRAP - 1 && outs != [] && !outs[0].Wrote? && r.used <= |outs| - 1
    requires Counted(data, n - 1, outs[1..], r)
    ensures Counted(data, n, outs, r.(used := r.used + 1))
  {
    OneCall(outs, r.used);
  }

  lemma Stopped(data: seq<Byte>, n: nat)
    requires n <= |data|
    ensures forall used, done :: Faithful(data, n, Raw(n, [], used, done))
  {
  }

  lemma PartWritten(data: seq<Byte>, n: nat, w: nat, s: Raw)
    requires n + w <= |data|
    ensures var r := s.(wire := data[n..n + w] + s.wire, used := s.used + 1);
            && (Faithful(data, n + w, s) ==> Faithful(data, n, r))
            && (Excess(data, n + w, s) ==> Excess(data, n, r))
  {
    if n + w <= s.n <= |data| {
      assert data[n..n + w] + data[n + w..s.n] == data[n..s.n];
    }
  }

  /** A failed call takes one byte back, or at 0 wraps around. */
  lemma WriteFailed(data: seq<Byte>, n: nat, s: Raw)
    requires |data| < WRAP - 1
    requires if n == 0 then s.n == WRAP - 1 else Faithful(data, n - 1, s) || Excess(data, n - 1, s)
    ensures Excess(data, n, s.(used := s.used + 1))
  {
  }

  lemma NoFailureNone(outs: seq<Outcome>)
    ensures NoFailure(outs[..0])
  {
  }

  lemma FaithfulExcludesExcess(data: seq<Byte>, n: nat, r: Raw)
    ensures !(Faithful(data, n, r) && Excess(data, n, r))
  {
  }

  lemma NoFailureCons(outs: seq<Outcome>, m: nat)
    requires m < |outs|
    ensures NoFailure(outs[..m + 1]) <==> outs[0].Wrote? && NoFailure(outs[1..][..m])
    ensures m == 0 && outs[0].Wrote? ==> NoFailure(outs[..1])
  {
    assert outs[..m + 1] == [outs[0]] + outs[1..][..m];
  }

  /** The loop in the code, over the outcomes the socket offers. */
  method ISendLoop(data: seq<Byte>, outs: seq<Outcome>) returns (nsend: nat, ghost wire: seq<Byte>, used: nat, done: bool)
    requires |data| < WRAP
    ensures Raw(nsend, wire, used, done) == ISendAsWritten(data, 0, outs)
  {
    hide ISendAsWritten;
    nsend, wire, used, done := 0, [], 0, true;
    assert outs[0..] == outs;
    while |data| > nsend
      invariant nsend < WRAP && used <= |outs| && done
      invariant var r := ISendAsWritten(data, nsend, outs[used..]);
                ISendAsWritten(data, 0, outs) == r.(wire := wire + r.wire, used := used + r.used)
      decreases |outs| - used
    {
      ISendEnds(data, nsend, outs[used..]);
      if used == |outs| {
        done := false;
        return;
      }
      var out := outs[used];
      ISendUnfold(data, nsend, outs[used..]);
      assert outs[used..][0] == out && outs[used..][1..] == outs[used + 1..];
      used := used + 1;
      match out {
        case Wrote(k) =>
          if k > 0 {
            var w := Min(k, |data| - nsend);
            wire := wire + data[nsend..nsend + w];
            nsend := nsend + w;
          } else {
            return;
          }
        case _ =>
          assert (nsend + (WRAP - 1)) % WRAP == AddMinusOne(nsend);
          nsend := (nsend + (WRAP - 1)) % WRAP;
      }
    }
    ISendEnds(data, nsend, outs[used..]);
  }

  // ---- send and tcpHandleWrite ----

  /** What a buffer holds after `consumed(n)`, with its begin index and its size modulo 2^64; `stray` is the
      byte that memory holds before the contents. */
  function Left(stray: Byte, data: seq<Byte>, n: nat): seq<Byte>
    requires |data| + 1 < WRAP && (n <= |data| || n == WRAP - 1)
  {
    ([stray] + data)[(1 + n) % WRAP..]
  }

  /** A connection and, as history, whether a write call has failed, and whether one has written nothing. */
  datatype Line = Line(conn: Conn, failed: bool, zero: bool)

  const NEW_LINE := Line(OPENED, false, false)

  function Note(l: Line, called: seq<Outcome>): Line {
    l.(failed := l.failed || !NoFailure(called), zero := l.zero || Wrote(0) in called)
  }

  predicate Returns(data: seq<Byte>, outs: seq<Outcome>) {
    |data| + 1 < WRAP && ISendAsWritten(data, 0, outs).done
  }

  /** `send`, if its `isend` returns on these outcomes. */
  function SendAsWritten(l: Line, frame: seq<Byte>, stray: Byte, outs: seq<Outcome>): (Line, int)
    requires Returns(frame, outs)
  {
    if !l.conn.open then (l, 0)
    else if l.conn.eventMode then (l, -1)
    else
      var r := ISendAsWritten(frame, 0, outs);
      var left := Left(stray, frame, r.n);
      var c := l.conn.(wire := l.conn.wire + r.wire, accepted := l.conn.accepted + [frame],
                       pending := l.conn.pending + left);
      (Note(l, outs[..r.used]).(conn := c), if left == [] then 0 else 1)
  }

  /** `tcpHandleWrite`, if its `isend` returns. */
  function HandleWriteAsWritten(l: Line, stray: Byte, outs: seq<Outcome>): Line
    requires Returns(l.conn.pending, outs)
  {
    if l.conn.pending == [] then l
    else
      var r := ISendAsWritten(l.conn.pending, 0, outs);
      var c := l.conn.(wire := l.conn.wire + r.wire, pending := Left(stray, l.conn.pending, r.n));
      Note(l, outs[..r.used]).(
        conn := if c.pending == [] && c.writeEnabled then c.(eventMode := false, writeEnabled := false) else c)
  }

  datatype RawStep = RawSend(frame: seq<Byte>, stray: Byte, outs: seq<Outcome>) | RawWriteEvent(stray: Byte, outs: seq<Outcome>)

  /** A call that does not return is no step; write events come only while they are enabled. */
  function NextAsWritten(l: Line, step: RawStep): Line {
    match step
    case RawSend(frame, stray, outs) => if Returns(frame, outs) then SendAsWritten(l, frame, stray, outs).0 else l
    case RawWriteEvent(stray, outs) =>
      if l.conn.writeEnabled && Returns(l.conn.pending, outs) then HandleWriteAsWritten(l, stray, outs) else l
  }

  function RunAsWritten(l: Line, steps: seq<RawStep>): Line
    decreases |steps|
  {
    if steps == [] then l else RunAsWritten(NextAsWritten(l, steps[0]), steps[1..])
  }

  /** Bytes sent followed by bytes buffered are what was accepted, in order. */
  predicate InOrder(c: Conn) { c.wire + c.pending == Concat(c.accepted) }

  lemma LeftOver(stray: Byte, data: seq<Byte>, n: nat)
    requires |data| + 1 < WRAP && (n <= |data| || n == WRAP - 1)
    ensures Left(stray, data, n) == if n <= |data| then data[n..] else [stray] + data
  {
    if n <= |data| {
      assert (1 + n) % WRAP == 1 + n;
      assert ([stray] + data)[1 + n..] == data[n..];
    } else {
      assert (1 + n) % WRAP == 0;
    }
  }

  /** One `isend` with its `consumed`: if no call fails, what was written and what is left are the data; if
      one does, they are together longer than the data. */
  lemma LeftExact(data: seq<Byte>, stray: Byte, outs: seq<Outcome>)
    requires Returns(data, outs)
    ensures var r := ISendAsWritten(data, 0, outs);
            var left := Left(stray, data, r.n);
            if NoFailure(outs[..r.used]) then r.wire + left == data else |r.wire| + |left| > |data|
  {
    hide ISendAsWritten, NoFailure;
    var r := ISendAsWritten(data, 0, outs);
    ISendAsWrittenExact(data, 0, outs);
    LeftOver(stray, data, r.n);
    if NoFailure(outs[..r.used]) {
      assert data[0..r.n] + data[r.n..] == data;
    }
  }

  /** Without failures, and without a call that writes nothing, everything is written. */
  lemma {:induction false} AllWritten(data: seq<Byte>, n: nat, outs: seq<Outcome>)
    requires n <= |data| < WRAP - 1 && ISendAsWritten(data, n, outs).done
    requires var used := ISendAsWritten(data, n, outs).used; NoFailure(outs[..used]) && Wrote(0) !in outs[..used]
    ensures ISendAsWritten(data, n, outs).n == |data|
    decreases |outs|
  {
    if n < |data| {
      var r := ISendAsWritten(data, n, outs);
      assert outs[..r.used][0] == outs[0];
      assert outs[0] in outs[..r.used];
      var w := Min(outs[0].k, |data| - n);
      NoFailureCons(outs, r.used - 1);
      assert outs[..r.used] == [outs[0]] + outs[1..][..r.used - 1];
      AllWritten(data, n + w, outs[1..]);
    }
  }

  lemma SameMiddle(a: seq<Byte>, x: seq<Byte>, y: seq<Byte>, b: seq<Byte>)
    requires |x| == |y|
    ensures a + x + b == a + y + b <==> x == y
  {
    if a + x + b == a + y + b {
      assert x == (a + x + b)[|a|..|a| + |x|] == (a + y + b)[|a|..|a| + |y|] == y;
    }
  }

  /** `send` as it stands keeps the bytes in order exactly if none of its write calls fails and the bytes it
      writes commute with the bytes already buffered, as they do if one of the two is empty. */
  lemma SendAsWrittenExact(l: Line, frame: seq<Byte>, stray: Byte, outs: seq<Outcome>)
    requires InOrder(l.conn) && l.conn.open && !l.conn.eventMode && Returns(frame, outs)
    ensures var r, c := ISendAsWritten(frame, 0, outs), l.conn;
            InOrder(SendAsWritten(l, frame, stray, outs).0.conn)
            <==> NoFailure(outs[..r.used]) && c.pending + r.wire == r.wire + c.pending
  {
    hide ISendAsWritten, Left, NoFailure;
    var c, r := l.conn, ISendAsWritten(frame, 0, outs);
    var left := Left(stray, frame, r.n);
    LeftExact(frame, stray, outs);
    ConcatSnoc(c.accepted, frame);
    if NoFailure(outs[..r.used]) {
      SameMiddle(c.wire, r.wire + c.pending, c.pending + r.wire, left);
      assert c.wire + r.wire + (c.pending + left) == c.wire + (r.wire + c.pending) + left;
      assert c.wire + c.pending + frame == c.wire + (c.pending + r.wire) + left;
    } else {
      assert |c.wire + r.wire + (c.pending + left)| > |c.wire + c.pending + frame|;
    }
  }

  /** The answer of `send` as it stands: 0, without effect, if there is no channel; -1, without effect, in event mode;
      otherwise 0 or 1, and 0 exactly if the bytes written are as many more than the frame has as calls have
      failed. */
  lemma SendAsWrittenAnswers(l: Line, frame: seq<Byte>, stray: Byte, outs: seq<Outcome>)
    requires Returns(frame, outs)
    ensures var (k, ret) := SendAsWritten(l, frame, stray, outs); var r := ISendAsWritten(frame, 0, outs);
            && (!l.conn.open || l.conn.eventMode ==> k == l)
            && ret == (if !l.conn.open then 0 else if l.conn.eventMode then -1
                       else if |r.wire| == |frame| + Failures(outs[..r.used]) then 0 else 1)
            && (ret == 1 ==> |l.conn.pending| < |k.conn.pending| <= |l.conn.pending| + |frame| + 1)
  {
    hide ISendAsWritten;
    ISendCountsAsWritten(frame, 0, outs);
    LeftOver(stray, frame, ISendAsWritten(frame, 0, outs).n);
  }

  /** A write event as the code stands keeps the bytes in order exactly if none of its write calls fails. */
  lemma HandleWriteAsWrittenExact(l: Line, stray: Byte, outs: seq<Outcome>)
    requires InOrder(l.conn) && l.conn.pending != [] && Returns(l.conn.pending, outs)
    ensures InOrder(HandleWriteAsWritten(l, stray, outs).conn)
            <==> NoFailure(outs[..ISendAsWritten(l.conn.pending, 0, outs).used])
    ensures var c, d := l.conn, HandleWriteAsWritten(l, stray, outs).conn;
            if d.pending == [] && c.writeEnabled then !d.eventMode && !d.writeEnabled
            else d.eventMode == c.eventMode && d.writeEnabled == c.writeEnabled
  {
    hide ISendAsWritten, Left, NoFailure;
    var c, r := l.conn, ISendAsWritten(l.conn.pending, 0, outs);
    var left := Left(stray, c.pending, r.n);
    LeftExact(c.pending, stray, outs);
    assert c.wire + r.wire + left == c.wire + (r.wire + left);
    if !NoFailure(outs[..r.used]) {
      assert |c.wire + r.wire + left| > |c.wire + c.pending|;
    }
  }

  // ---- Every run ----

  /** Event-driven sending is off.  A failed write has made the connection longer than what it accepted;
      without one nothing is lost or added, and if every call has written something, all is sent. */
  ghost predicate RawOk(l: Line) {
    && l.conn.open && !l.conn.eventMode && !l.conn.writeEnabled
    && (if l.failed then |l.conn.wire| + |l.conn.pending| > |Concat(l.conn.accepted)|
        else |l.conn.wire| + |l.conn.pending| == |Concat(l.conn.accepted)|)
    && (!l.failed && !l.zero ==> l.conn.pending == [] && l.conn.wire == Concat(l.conn.accepted))
  }

  lemma SendRawOk(l: Line, frame: seq<Byte>, stray: Byte, outs: seq<Outcome>)
    requires RawOk(l) && Returns(frame, outs)
    ensures RawOk(SendAsWritten(l, frame, stray, outs).0) && SendAsWritten(l, frame, stray, outs).1 != -1
  {
    hide ISendAsWritten, NoFailure;
    var c, r := l.conn, ISendAsWritten(frame, 0, outs);
    LeftExact(frame, stray, outs);
    ConcatSnoc(c.accepted, frame);
    if NoFailure(outs[..r.used]) && Wrote(0) !in outs[..r.used] {
      AllWritten(frame, 0, outs);
      assert Left(stray, frame, |frame|) == [];
    }
  }

  lemma {:induction false} RunRawOk(l: Line, steps: seq<RawStep>)
    requires RawOk(l)
    ensures RawOk(RunAsWritten(l, steps))
    decreases |steps|
  {
    hide RawOk, SendAsWritten, Returns;
    if steps != [] {
      WritesStayOff(l);
      if steps[0].RawSend? && Returns(steps[0].frame, steps[0].outs) {
        SendRawOk(l, steps[0].frame, steps[0].stray, steps[0].outs);
      }
      RunRawOk(NextAsWritten(l, steps[0]), steps[1..]);
    }
  }

  lemma WritesStayOff(l: Line)
    requires RawOk(l)
    ensures !l.conn.writeEnabled
  {
  }

  /** Every write call takes at least one byte. */
  predicate Takes(step: RawStep) { forall o | o in step.outs :: o.Wrote? && o.k > 0 }

  lemma {:induction false} RunStaysClean(l: Line, steps: seq<RawStep>)
    requires forall i | 0 <= i < |steps| :: Takes(steps[i])
    ensures var t := RunAsWritten(l, steps); t.failed == l.failed && t.zero == l.zero
    decreases |steps|
  {
    if steps != [] {
      NextStaysClean(l, steps[0]);
      RunStaysClean(NextAsWritten(l, steps[0]), steps[1..]);
    }
  }

  lemma NextStaysClean(l: Line, step: RawStep)
    requires Takes(step)
    ensures var t := NextAsWritten(l, step); t.failed == l.failed && t.zero == l.zero
  {
    hide ISendAsWritten, Left;
    assert forall n | 0 <= n <= |step.outs| :: forall o | o in step.outs[..n] :: o in step.outs;
  }

  /** A run in which every write call takes at least one byte sends all it accepts, in order, at once. */
  lemma CleanRunSendsAll(steps: seq<RawStep>)
    requires forall i | 0 <= i < |steps| :: Takes(steps[i])
    ensures var c := RunAsWritten(NEW_LINE, steps).conn; c.pending == [] && c.wire == Concat(c.accepted)
  {
    RunStaysClean(NEW_LINE, steps);
    RunAsWrittenExact(steps);
  }

  /** In every run of the code as it stands event-driven sending is never entered.  Once a write call has
      failed, sent and buffered bytes are never again what was accepted; as long as every write call has
      taken at least one byte, everything accepted has been sent, in order. */
  lemma RunAsWrittenExact(steps: seq<RawStep>)
    ensures var l := RunAsWritten(NEW_LINE, steps);
            && !l.conn.eventMode && !l.conn.writeEnabled
            && (|l.conn.wire| + |l.conn.pending| == |Concat(l.conn.accepted)| <==> !l.failed)
            && (l.failed ==> !InOrder(l.conn))
            && (!l.failed && !l.zero ==> l.conn.pending == [] && l.conn.wire == Concat(l.conn.accepted))
            && (!l.zero ==> (InOrder(l.conn) <==> !l.failed))
  {
    RunRawOk(NEW_LINE, steps);
    var c := RunAsWritten(NEW_LINE, steps).conn;
    assert |c.wire + c.pending| == |c.wire| + |c.pending|;
    assert c.wire + [] == c.wire;
  }
}
