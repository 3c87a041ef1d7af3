/** The connection object of net/tiny_tcpconnection.cxx, proved against `SendPath` and `Stream`. */
module Connections {
  import opened Bytes
  import opened Buffers
  import opened Codec
  import opened Common
  import Stream
  import opened SendPath

  type Positive = k: int | 0 < k witness 1

  /** What one `read` call does: up to k bytes of those that have arrived (none have: it would block), or one of
      the ways it delivers none. */
  datatype ReadTry = UpTo(k: Positive) | ReadInterrupted | ReadWouldBlock | EndOfFile | ReadFailed

  /** One successful `read` of at most `k` bytes into the free tail of the buffer. */
  method ReadSome(recv: Buffer, incoming: seq<Byte>, k: nat) returns (rd: nat)
    requires recv.Valid()
    modifies recv.Repr()
    ensures recv.Valid() && fresh(recv.Repr() - old(recv.Repr()))
    ensures Min(Min(k, SLACK), |incoming|) <= rd <= Min(k, |incoming|)
    ensures recv.View().data == old(recv.View().data) + incoming[..rd]
  {
    recv.MakeRoom();
    rd := Min(k, Min(recv.capacity - recv.end, |incoming|));
    recv.Receive(incoming[..rd]);
  }

  lemma TakeMore(before: seq<Byte>, incoming: seq<Byte>, taken: nat, more: nat)
    requires taken + more <= |incoming|
    ensures before + incoming[..taken] + incoming[taken..][..more] == before + incoming[..taken + more]
  {
    assert incoming[..taken] + incoming[taken..][..more] == incoming[..taken + more];
  }

  /** How many tries come before the first that ends the reading loop. */
  function TriesBefore(tries: seq<ReadTry>): (n: nat)
    ensures n <= |tries| && (n < |tries| ==> !tries[n].UpTo? && !tries[n].ReadInterrupted?)
    ensures forall i | 0 <= i < n :: tries[i].UpTo? || tries[i].ReadInterrupted?
  {
    if tries == [] || !(tries[0].UpTo? || tries[0].ReadInterrupted?) then 0 else 1 + TriesBefore(tries[1..])
  }

  /** The peer has closed, or an error has occurred, by the time the loop ends. */
  predicate HangsUp(tries: seq<ReadTry>) {
    var n := TriesBefore(tries);
    n < |tries| && (tries[n].EndOfFile? || tries[n].ReadFailed?)
  }

  /** The bytes that the first `n` tries deliver at most, if each delivers at most `limit`. */
  function Offered(tries: seq<ReadTry>, n: nat, limit: nat): nat
    requires n <= |tries|
  {
    if n == 0 then 0
    else Offered(tries, n - 1, limit) + (if tries[n - 1].UpTo? then Min(tries[n - 1].k, limit) else 0)
  }

  /** All that the tries deliver at most. */
  function Most(tries: seq<ReadTry>, n: nat): nat
    requires n <= |tries|
  {
    if n == 0 then 0 else Most(tries, n - 1) + (if tries[n - 1].UpTo? then tries[n - 1].k else 0)
  }

  lemma {:induction false} MostGrows(tries: seq<ReadTry>, m: nat, n: nat)
    requires m <= n <= |tries|
    ensures Most(tries, m) <= Most(tries, n)
    decreases n
  {
    if m < n {
      MostGrows(tries, m, n - 1);
    }
  }

  /** What the reading loop is to take of `arrived` bytes, and when it is to find that the socket has no more:
      all that the tries offer, as far as it has arrived, where a try of more than 512 bytes may be cut to the
      free tail; and the loop goes on to the end of the stream unless it finds the socket empty before. */
  predicate ReadsAll(tries: seq<ReadTry>, arrived: nat, taken: nat, drained: bool) {
    var n := TriesBefore(tries);
    && Min(Offered(tries, n, SLACK), arrived) <= taken <= Min(Most(tries, n), arrived)
    && (!drained ==> HangsUp(tries))
    && (drained && HangsUp(tries) ==> taken == arrived < Most(tries, n))
  }

  /** The reading loop of `tcpHandleRead`: bytes of `incoming` are taken into the receive buffer until the
      socket has no more (`drained`), or the peer has closed or an error occurs. */
  method Drain(recv: Buffer, incoming: seq<Byte>, tries: seq<ReadTry>) returns (taken: nat, drained: bool)
    requires recv.Valid()
    modifies recv.Repr()
    ensures recv.Valid() && fresh(recv.Repr() - old(recv.Repr()))
    ensures taken <= |incoming| && recv.View().data == old(recv.View().data) + incoming[..taken]
    ensures ReadsAll(tries, |incoming|, taken, drained)
  {
    hide Shadow.Valid, Buffer.View, Buffer.Layout;
    taken := 0;
    ghost var before := recv.View().data;
    var i := 0;
    while i < |tries|
      invariant recv.Valid() && fresh(recv.Repr() - old(recv.Repr()))
      invariant i <= TriesBefore(tries) && taken <= |incoming|
      invariant Min(Offered(tries, i, SLACK), |incoming|) <= taken <= Most(tries, i)
      invariant recv.View().data == before + incoming[..taken]
      decreases |tries| - i
    {
      var next := tries[i];
      i := i + 1;
      match next {
        case UpTo(k) =>
          var rd := ReadSome(recv, incoming[taken..], k);
          TakeMore(before, incoming, taken, rd);
          taken := taken + rd;
          MostGrows(tries, i, TriesBefore(tries));
          if rd == 0 {
            return taken, true;
          }
        case ReadInterrupted =>
        case ReadWouldBlock =>
          return taken, true;
        case EndOfFile =>
          return taken, false;
        case ReadFailed =>
          return taken, false;
      }
    }
    drained := true;
  }

  class TcpConnection {
    var hasChannel: bool
    var readEnabled: bool
    var writeEnabled: bool
    var useSendEvent: bool
    var curSequence: nat
    var inRecyTime: int
    const recvBuffer: Buffer
    const writeBuffer: Buffer

    /** The send side since the last `init`, with its history; `Valid` ties it to the fields. */
    ghost var state: Conn

    ghost function Repr(): set<object>
      reads this, recvBuffer, writeBuffer
    {
      {this} + recvBuffer.Repr() + writeBuffer.Repr()
    }

    /** The write buffer holds an allocation only while it holds bytes. */
    ghost predicate Valid()
      reads this, recvBuffer, writeBuffer, recvBuffer.Repr(), writeBuffer.Repr()
    {
      && recvBuffer.Repr() !! writeBuffer.Repr() && this !in recvBuffer.Repr() + writeBuffer.Repr()
      && recvBuffer.Valid() && writeBuffer.Valid()
      && hasChannel == state.open && useSendEvent == state.eventMode && writeEnabled == state.writeEnabled
      && writeBuffer.View().data == state.pending
      && (state.pending == [] ==> writeBuffer.View() == EMPTY)
    }

    constructor ()
      ensures Valid() && fresh(Repr()) && curSequence == 0
      ensures state == Conn(false, false, false, [], [], []) && recvBuffer.View().data == []
    {
      recvBuffer := new Buffer();
      writeBuffer := new Buffer();
      hasChannel, readEnabled, writeEnabled, useSendEvent := false, false, false, false;
      curSequence, inRecyTime := 0, 0;
      state := Conn(false, false, false, [], [], []);
    }

    /** Checked out of the pool: the next sequence number, empty buffers, a channel for reading only. */
    method Init()
      requires Valid()
      modifies Repr()
      ensures Valid() && fresh(Repr() - old(Repr()))
      ensures curSequence == old(curSequence) + 1 && readEnabled && state == OPENED && recvBuffer.View().data == []
    {
      curSequence := curSequence + 1;
      useSendEvent := false;
      recvBuffer.Clear();
      writeBuffer.Clear();
      hasChannel, readEnabled, writeEnabled := true, true, false;
      state := OPENED;
    }

    /** Returned to the pool: the next sequence number, no channel. */
    method Reset()
      requires Valid()
      modifies this
      ensures Valid() && curSequence == old(curSequence) + 1
      ensures state == old(state).(open := false, eventMode := false, writeEnabled := false)
    {
      curSequence := curSequence + 1;
      useSendEvent := false;
      hasChannel, writeEnabled := false, false;
      state := state.(open := false, eventMode := false, writeEnabled := false);
    }

    /** `isend` with a signed result and write events enabled.  The bytes taken are `data[..n]`. */
    method ISend(data: seq<Byte>, outs: seq<Outcome>) returns (n: nat, ghost ending: Ending)
      modifies this`useSendEvent, this`writeEnabled
      ensures Sent(n, ending) == SendPath.ISend(|data|, outs)
      ensures n == Min(|data|, Taken(outs[..CallsBefore(outs)]))
      ensures if ending == Blocked && !old(writeEnabled) then useSendEvent && writeEnabled
              else useSendEvent == old(useSendEvent) && writeEnabled == old(writeEnabled)
    {
      ISendCounts(|data|, outs);
      n, ending := 0, Done;
      var i := 0;
      while |data| > n
        invariant n <= |data| && i <= |outs|
        invariant useSendEvent == old(useSendEvent) && writeEnabled == old(writeEnabled)
        invariant var r := SendPath.ISend(|data| - n, outs[i..]);
                  SendPath.ISend(|data|, outs) == Sent(n + r.n, r.ending)
        invariant ending == Done
        decreases |outs| - i, |data| - n
      {
        var out := if i < |outs| then outs[i] else WouldBlock;
        assert i < |outs| ==> outs[i..][1..] == outs[i + 1..];
        i := if i < |outs| then i + 1 else i;
        match out {
          case Wrote(k) =>
            if k > 0 {
              n := n + Min(k, |data| - n);
            } else {
              ending := Error;
              return;
            }
          case Interrupted =>
          case WouldBlock =>
            if !writeEnabled {
              useSendEvent := true;
              writeEnabled := true;
            }
            ending := Blocked;
            return;
          case Failed =>
            ending := Error;
            return;
        }
      }
    }

    /** Bytes that could not be written are kept behind those already buffered. */
    method KeepRest(buffer: Buffer) returns (ret: int)
      requires buffer.Valid() && writeBuffer.Valid() && buffer.Repr() !! writeBuffer.Repr()
      modifies writeBuffer.Repr()
      ensures writeBuffer.Valid() && fresh(writeBuffer.Repr() - old(writeBuffer.Repr()))
      ensures writeBuffer.View().data == old(writeBuffer.View().data) + old(buffer.View().data)
      ensures if old(buffer.View().data) == [] then ret == 0 && writeBuffer.View() == old(writeBuffer.View()) else ret == 1
    {
      hide Shadow.Valid;
      var rest := buffer.Data();
      if |rest| > 0 {
        MakeRoomForLeavesLen(writeBuffer.View(), |rest|);
        writeBuffer.Append(rest);
        return 1;
      }
      return 0;
    }

    /** Writes from a buffer and consumes what the socket has taken. */
    method WriteOut(buffer: Buffer, outs: seq<Outcome>) returns (ghost sent: Sent)
      requires buffer.Valid() && this !in buffer.Repr()
      modifies this`useSendEvent, this`writeEnabled, buffer
      ensures buffer.Valid() && buffer.Repr() <= old(buffer.Repr())
      ensures sent == SendPath.ISend(|old(buffer.View().data)|, outs)
      ensures buffer.View().data == old(buffer.View().data)[sent.n..]
      ensures buffer.View().data == [] && old(buffer.View().data) != [] ==> buffer.View() == EMPTY
      ensures if sent.ending == Blocked && !old(writeEnabled) then useSendEvent && writeEnabled
              else useSendEvent == old(useSendEvent) && writeEnabled == old(writeEnabled)
    {
      var data := buffer.Data();
      if |data| > 0 {
        var sended, ending := ISend(data, outs);
        buffer.Consumed(sended);
        sent := Sent(sended, ending);
      } else {
        sent := Sent(0, Done);
      }
    }

    /** A direct send: what the socket takes is consumed, the rest of the buffer is kept for write events. */
    method SendDirect(buffer: Buffer, outs: seq<Outcome>) returns (ret: int)
      requires Valid() && buffer.Valid() && buffer.Repr() !! Repr() && state.open && !state.eventMode
      modifies this`useSendEvent, this`writeEnabled, this`state, writeBuffer.Repr(), buffer
      ensures Valid() && fresh(writeBuffer.Repr() - old(writeBuffer.Repr()))
      ensures (state, ret) == SendPath.Send(old(state), old(buffer.View().data), outs)
    {
      hide SendPath.ISend, SendPath.Send, Shadow.Valid, Buffer.View, Buffer.Layout;
      ghost var data := buffer.View().data;
      DirectSend(state, data, outs);
      ghost var sent := WriteOut(buffer, outs);
      ret := KeepRest(buffer);
      state := SendPath.Send(state, data, outs).0;
    }

    /** `send`; refused while event-driven sending is under way, and without effect on a connection that
        has no channel. */
    method Send(buffer: Buffer, outs: seq<Outcome>) returns (ret: int)
      requires Valid() && buffer.Valid() && buffer.Repr() !! Repr()
      modifies this`useSendEvent, this`writeEnabled, this`state, writeBuffer.Repr(), buffer
      ensures Valid() && fresh(writeBuffer.Repr() - old(writeBuffer.Repr()))
      ensures (state, ret) == SendPath.Send(old(state), old(buffer.View().data), outs)
    {
      if hasChannel {
        if useSendEvent {
          return -1;
        }
        ret := SendDirect(buffer, outs);
      } else {
        ret := 0;
      }
    }

    /** `tcpHandleWrite`. */
    method HandleWrite(outs: seq<Outcome>)
      requires Valid()
      modifies this`useSendEvent, this`writeEnabled, this`state, writeBuffer
      ensures Valid() && writeBuffer.Repr() <= old(writeBuffer.Repr())
      ensures state == SendPath.HandleWrite(old(state), outs)
    {
      hide SendPath.ISend, SendPath.HandleWrite, Shadow.Valid, Buffer.View, Buffer.Layout;
      HandledWrite(state, outs);
      var size := writeBuffer.Size();
      if size > 0 {
        WriteBuffered(outs);
      }
    }

    /** The bytes that the socket takes leave the write buffer; when none is left, write events end. */
    method WriteBuffered(outs: seq<Outcome>)
      requires Valid() && state.pending != []
      modifies this`useSendEvent, this`writeEnabled, this`state, writeBuffer
      ensures Valid() && writeBuffer.Repr() <= old(writeBuffer.Repr())
      ensures state == SendPath.HandleWrite(old(state), outs)
    {
      hide SendPath.ISend, SendPath.HandleWrite, Shadow.Valid, Buffer.View, Buffer.Layout;
      ghost var before := state;
      HandledWrite(before, outs);
      ghost var sent := WriteOut(writeBuffer, outs);
      state := SendPath.HandleWrite(before, outs);
      var left := writeBuffer.Size();
      if left == 0 && writeEnabled {
        writeEnabled := false;
        useSendEvent := false;
      }
    }

    // ---- Reading ----

    /** The connection's part of `recycle`: the time is noted and read events are switched off. */
    method Recycle(now: int)
      modifies this`readEnabled, this`inRecyTime
      ensures !readEnabled && inRecyTime == now
    {
      inRecyTime := now;
      readEnabled := false;
    }

    /** `tcpHandleRead` with the server's read callback.  The callback runs only when the socket has been
        drained: what arrives together with the end of the stream is never decoded. */
    method HandleRead(incoming: seq<Byte>, tries: seq<ReadTry>, now: int)
      returns (taken: nat, drained: bool, rpts: seq<Rpt>, ending: Stream.Ending)
      requires Valid()
      modifies this`readEnabled, this`inRecyTime, recvBuffer.Repr()
      ensures Valid() && fresh(recvBuffer.Repr() - old(recvBuffer.Repr()))
      ensures taken <= |incoming|
      ensures var batch := old(recvBuffer.View().data) + incoming[..taken];
              if drained then Stream.Parsed(rpts, recvBuffer.View().data, ending) == Stream.Parse(batch)
              else rpts == [] && recvBuffer.View().data == batch
      ensures ReadsAll(tries, |incoming|, taken, drained)
      ensures HangsUp(tries) && Most(tries, TriesBefore(tries)) <= |incoming| ==>
                !readEnabled && inRecyTime == now && rpts == []
      ensures readEnabled <==> old(readEnabled) && drained && ending != Stream.Broken
      ensures inRecyTime == if drained && ending != Stream.Broken then old(inRecyTime) else now
      ensures state == old(state)
    {
      hide Shadow.Valid, Stream.Parse, Buffer.View, Buffer.Layout;
      taken, drained := Drain(recvBuffer, incoming, tries);
      rpts, ending := [], Stream.Open;
      if drained {
        rpts, ending := Stream.OnRead(recvBuffer);
      }
      if !drained || ending == Stream.Broken {
        Recycle(now);
      }
    }
  }
}
