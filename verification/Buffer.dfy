/**
 The growing byte buffer of net/tiny_buffer.cxx.

 `Shadow` is the value of a buffer: the bytes between begin and end, where they lie in the
 allocation, and how much copying the allocation has cost since it was last released.
 The class below keeps a real array and is proved against the functions on `Shadow`.

 Two members of the source do not do what its header promises: `makeRoom(len)` tests the free tail
 with the begin index (net/tiny_buffer.cxx:123), and `moveHead` zeroes the begin index before it is
 subtracted (:116-117).  `MakeRoomFor` and `MoveHead` are the members the header promises;
 `AppendAsWritten` is the code as it stands, with the exact condition under which it appends.
 */
module Buffers {
  import opened Bytes
  import opened Common

  const SLACK: nat := 512

  /** `copied`: bytes moved by `expand`; `moved`: bytes moved by `moveHead`; `appended`: bytes added or
      tail space asked for; all three since the allocation was last released. */
  datatype Shadow = Shadow(data: seq<Byte>, begin: nat, cap: nat, copied: nat, moved: nat, appended: nat) {

    function End(): nat { begin + |data| }

    function Space(): int { cap - End() }

    ghost predicate Valid() {
      && End() <= cap
      && (cap == 0 || SLACK <= cap)
      && (if cap == 0 then copied == 0 else copied + SLACK <= cap)
      && moved + End() <= appended
      && cap <= 2 * appended + 1024
    }

    function Expand(len: nat): Shadow {
      this.(begin := 0, cap := Max(SLACK, Max(2 * cap, |data| + len)), copied := copied + |data|)
    }

    function MoveHead(): Shadow {
      this.(begin := 0, moved := moved + |data|)
    }

    function MakeRoom(): Shadow {
      if Space() < SLACK then Expand(0) else this
    }

    function MakeRoomFor(len: nat): Shadow {
      var room := if End() + len <= cap then this
                  else if |data| + len < cap / 2 then MoveHead()
                  else Expand(len);
      room.(appended := appended + len)
    }

    function AddSize(tail: seq<Byte>): Shadow {
      this.(data := data + tail, appended := appended + |tail|)
    }

    function Append(tail: seq<Byte>): Shadow {
      var room := MakeRoomFor(|tail|);
      room.(data := room.data + tail)
    }

    function Consumed(n: nat): Shadow
      requires n <= |data|
    {
      if n == |data| then EMPTY else this.(begin := begin + n, data := data[n..])
    }
  }

  const EMPTY := Shadow([], 0, 0, 0, 0, 0)

  // ---- What the header promises of the two makeRoom members ----

  lemma MakeRoomLeavesSlack(b: Shadow)
    requires b.Valid()
    ensures b.MakeRoom().Valid() && b.MakeRoom().data == b.data
    ensures b.MakeRoom().Space() >= SLACK
  {
  }

  lemma MakeRoomForLeavesLen(b: Shadow, len: nat)
    requires b.Valid()
    ensures b.MakeRoomFor(len).Valid() && b.MakeRoomFor(len).data == b.data
    ensures b.MakeRoomFor(len).Space() >= len
  {
  }

  /** Room in the tail is used as it is; otherwise the contents are copied once.  `makeRoom()` at most doubles an
      allocation that is short of it; `makeRoom(len)` enlarges one only if it is short of about four times what it
      is to hold, and moves contents that take less than half of it to its start instead. */
  lemma RoomIsFrugal(b: Shadow, len: nat)
    requires b.Valid()
    ensures var c := b.MakeRoomFor(len);
            && c.cap >= b.cap && (c.cap > b.cap ==> c.cap <= Max(SLACK, 4 * (|b.data| + len) + 2))
            && (b.Space() >= len ==> c == b.(appended := c.appended))
            && (c.begin != b.begin ==> c.begin == 0 && b.Space() < len)
            && (c.cap == b.cap ==> c.copied == b.copied) && (c.cap > b.cap ==> c.moved == b.moved)
            && c.copied + c.moved == b.copied + b.moved + if b.Space() >= len then 0 else |b.data|
    ensures var d := b.MakeRoom();
            if b.Space() >= 512 then d == b
            else d.begin == 0 && d.cap <= Max(512, 2 * b.cap) && d.copied + d.moved == b.copied + b.moved + |b.data|
  {
  }

  // ---- Every run of buffer operations, against a plain byte sequence ----

  datatype Op =
    | OpAppend(bytes: seq<Byte>)
    | OpMakeRoom
    | OpMakeRoomFor(len: nat)
    | OpAddSize(bytes: seq<Byte>)
    | OpConsumed(n: nat)
    | OpClear

  /** What the source asks of a caller: fill only free space, consume only what is there. */
  predicate Legal(b: Shadow, op: Op) {
    match op
    case OpAddSize(bytes) => |bytes| <= b.Space()
    case OpConsumed(n) => n <= |b.data|
    case _ => true
  }

  function Apply(b: Shadow, op: Op): Shadow
    requires Legal(b, op)
  {
    match op
    case OpAppend(bytes) => b.Append(bytes)
    case OpMakeRoom => b.MakeRoom()
    case OpMakeRoomFor(len) => b.MakeRoomFor(len)
    case OpAddSize(bytes) => b.AddSize(bytes)
    case OpConsumed(n) => b.Consumed(n)
    case OpClear => EMPTY
  }

  predicate LegalRun(b: Shadow, ops: seq<Op>)
    decreases |ops|
  {
    ops != [] ==> Legal(b, ops[0]) && LegalRun(Apply(b, ops[0]), ops[1..])
  }

  function Run(b: Shadow, ops: seq<Op>): Shadow
    requires LegalRun(b, ops)
    decreases |ops|
  {
    if ops == [] then b else Run(Apply(b, ops[0]), ops[1..])
  }

  /** The same operations on the bytes alone. */
  function ApplyBytes(data: seq<Byte>, op: Op): seq<Byte> {
    match op
    case OpAppend(bytes) => data + bytes
    case OpAddSize(bytes) => data + bytes
    case OpConsumed(n) => if n <= |data| then data[n..] else []
    case OpClear => []
    case _ => data
  }

  function RunBytes(data: seq<Byte>, ops: seq<Op>): seq<Byte>
    decreases |ops|
  {
    if ops == [] then data else RunBytes(ApplyBytes(data, ops[0]), ops[1..])
  }

  lemma ApplyRefinesBytes(b: Shadow, op: Op)
    requires b.Valid() && Legal(b, op)
    ensures Apply(b, op).data == ApplyBytes(b.data, op)
    ensures Apply(b, op).Valid()
  {
    match op
    case OpAppend(bytes) => MakeRoomForLeavesLen(b, |bytes|);
    case OpMakeRoomFor(len) => MakeRoomForLeavesLen(b, len);
    case _ =>
  }

  /** Any legal run matches the run on plain bytes; `expand` has then copied at most cap - 512 bytes,
      `moveHead` at most what was appended, and the allocation is linear in what was appended. */
  lemma {:induction false} RunRefinesBytes(b: Shadow, ops: seq<Op>)
    requires b.Valid() && LegalRun(b, ops)
    ensures Run(b, ops).data == RunBytes(b.data, ops)
    ensures Run(b, ops).Valid()
    decreases |ops|
  {
    if ops != [] {
      ApplyRefinesBytes(b, ops[0]);
      RunRefinesBytes(Apply(b, ops[0]), ops[1..]);
    }
  }

  lemma CopyingIsLinear(ops: seq<Op>)
    requires LegalRun(EMPTY, ops)
    ensures var b := Run(EMPTY, ops);
            && (b.cap > 0 ==> b.copied + 512 <= b.cap)
            && b.cap <= 2 * b.appended + 1024
            && b.copied + b.moved <= 3 * b.appended + 1024
  {
    RunRefinesBytes(EMPTY, ops);
  }

  // ---- Several buffers, and moves between them ----

  /** An operation on buffer `i`, or the move of buffer `from` into buffer `i`; a move of a buffer into itself
      does nothing. */
  datatype ManyOp = On(i: nat, op: Op) | MoveInto(i: nat, from: nat)

  predicate LegalIn(bs: seq<Shadow>, op: ManyOp) {
    && op.i < |bs|
    && match op
       case On(i, one) => Legal(bs[i], one)
       case MoveInto(_, from) => from < |bs|
  }

  function ApplyIn(bs: seq<Shadow>, op: ManyOp): (r: seq<Shadow>)
    requires LegalIn(bs, op)
    ensures |r| == |bs|
  {
    match op
    case On(i, one) => bs[i := Apply(bs[i], one)]
    case MoveInto(i, from) => if i == from then bs else bs[i := bs[from]][from := EMPTY]
  }

  predicate LegalMany(bs: seq<Shadow>, ops: seq<ManyOp>)
    decreases |ops|
  {
    ops != [] ==> LegalIn(bs, ops[0]) && LegalMany(ApplyIn(bs, ops[0]), ops[1..])
  }

  function RunMany(bs: seq<Shadow>, ops: seq<ManyOp>): (r: seq<Shadow>)
    requires LegalMany(bs, ops)
    ensures |r| == |bs|
    decreases |ops|
  {
    if ops == [] then bs else RunMany(ApplyIn(bs, ops[0]), ops[1..])
  }

  /** The same on the bytes alone: a move leaves nothing behind. */
  function ApplyBytesIn(datas: seq<seq<Byte>>, op: ManyOp): (r: seq<seq<Byte>>)
    ensures |r| == |datas|
  {
    if op.i >= |datas| then datas
    else
      match op
      case On(i, one) => datas[i := ApplyBytes(datas[i], one)]
      case MoveInto(i, from) => if i == from || from >= |datas| then datas else datas[i := datas[from]][from := []]
  }

  function RunBytesMany(datas: seq<seq<Byte>>, ops: seq<ManyOp>): (r: seq<seq<Byte>>)
    ensures |r| == |datas|
    decreases |ops|
  {
    if ops == [] then datas else RunBytesMany(ApplyBytesIn(datas, ops[0]), ops[1..])
  }

  function DatasOf(bs: seq<Shadow>): seq<seq<Byte>> { seq(|bs|, i requires 0 <= i < |bs| => bs[i].data) }

  ghost predicate AllValid(bs: seq<Shadow>) { forall i | 0 <= i < |bs| :: bs[i].Valid() }

  lemma ApplyInRefinesBytes(bs: seq<Shadow>, op: ManyOp)
    requires AllValid(bs) && LegalIn(bs, op)
    ensures AllValid(ApplyIn(bs, op)) && DatasOf(ApplyIn(bs, op)) == ApplyBytesIn(DatasOf(bs), op)
  {
    hide Apply, ApplyBytes;
    match op
    case On(i, one) => ApplyRefinesBytes(bs[i], one);
    case MoveInto(i, from) =>
  }

  /** Any legal run over any number of buffers, moves between them included, gives the bytes of the same run on
      plain sequences, and every buffer keeps its layout and its cost bounds. */
  lemma {:induction false} RunManyRefinesBytes(bs: seq<Shadow>, ops: seq<ManyOp>)
    requires AllValid(bs) && LegalMany(bs, ops)
    ensures AllValid(RunMany(bs, ops)) && DatasOf(RunMany(bs, ops)) == RunBytesMany(DatasOf(bs), ops)
    decreases |ops|
  {
    hide AllValid, ApplyIn, ApplyBytesIn, DatasOf;
    if ops != [] {
      ApplyInRefinesBytes(bs, ops[0]);
      RunManyRefinesBytes(ApplyIn(bs, ops[0]), ops[1..]);
    }
  }

  // ---- The code as written ----

  /** When `append` as written copies into the free tail: the guard that fails is the test at
      net/tiny_buffer.cxx:123, which admits `begin + len` where `end + len` is meant. */
  predicate AppendFits(b: Shadow, len: nat) {
    b.End() + len <= b.cap || (b.begin + len > b.cap && |b.data| + len >= b.cap / 2)
  }

  /** The first `append` to a buffer that holds no allocation is right as written, as it is for the write buffer
      of a connection that has no bytes to send. */
  lemma FirstAppendFits(len: nat)
    ensures AppendFits(EMPTY, len)
  {
  }

  /** A buffer whose first byte sits at index 0 fails only where the tail is short of `len` while the
      whole allocation is not. */
  lemma AppendFitsAtHead(b: Shadow, len: nat)
    requires b.Valid() && b.begin == 0
    ensures AppendFits(b, len) <==> !(b.cap - |b.data| < len <= b.cap)
  {
  }

  lemma AddSizeValid(b: Shadow, tail: seq<Byte>)
    requires b.Valid() && |tail| <= b.Space()
    ensures b.AddSize(tail).Valid()
  {
  }

  class Buffer {
    var buf: array?<Byte>
    var begin: nat
    var end: nat
    var capacity: nat
    ghost var copied: nat
    ghost var moved: nat
    ghost var appended: nat

    ghost function Repr(): set<object>
      reads this
    {
      if buf == null then {this} else {this, buf}
    }

    ghost predicate Layout()
      reads this
    {
      && begin <= end <= capacity
      && (if buf == null then capacity == 0 else buf.Length == capacity > 0)
    }

    ghost function View(): Shadow
      reads this, Repr()
      requires Layout()
    {
      Shadow(if buf == null then [] else buf[begin..end], begin, capacity, copied, moved, appended)
    }

    ghost predicate Valid()
      reads this, Repr()
    {
      Layout() && View().Valid()
    }

    constructor ()
      ensures Valid() && fresh(Repr()) && View() == EMPTY
    {
      buf, begin, end, capacity := null, 0, 0, 0;
      copied, moved, appended := 0, 0, 0;
    }

    /** The move constructor: the new buffer takes the allocation, the old one is cleared. */
    constructor Move(b: Buffer)
      requires b.Valid()
      modifies b
      ensures Valid() && View() == old(b.View())
      ensures b.Valid() && b.View() == EMPTY
      ensures Repr() == {this} + (old(b.Repr()) - {b}) && b.Repr() == {b}
    {
      buf, begin, end, capacity := b.buf, b.begin, b.end, b.capacity;
      copied, moved, appended := b.copied, b.moved, b.appended;
      new;
      b.buf := null;
      b.Clear();
    }

    /** Move assignment; assigning a buffer to itself leaves it alone. */
    method MoveFrom(b: Buffer)
      requires Valid() && b.Valid() && (b != this ==> Repr() !! b.Repr())
      modifies this, b
      ensures Valid() && View() == old(b.View())
      ensures b != this ==> b.Valid() && b.View() == EMPTY && b.Repr() == {b}
      ensures b != this ==> Repr() == {this} + (old(b.Repr()) - {b})
    {
      if b == this {
        return;
      }
      Clear();
      buf, b.buf := b.buf, buf;
      begin, end, capacity := b.begin, b.end, b.capacity;
      copied, moved, appended := b.copied, b.moved, b.appended;
      b.Clear();
    }

    method Size() returns (n: nat)
      requires Valid()
      ensures n == |View().data|
    {
      n := end - begin;
    }

    method Data() returns (d: seq<Byte>)
      requires Valid()
      ensures d == View().data
    {
      d := if buf == null then [] else buf[begin..end];
    }

    method Clear()
      modifies this
      ensures Valid() && View() == EMPTY && buf == null
    {
      buf, begin, end, capacity := null, 0, 0, 0;
      copied, moved, appended := 0, 0, 0;
    }

    /** Copies the contents to the start of `p`. */
    method CopyTo(p: array<Byte>)
      requires Layout() && p != buf && end - begin <= p.Length
      modifies p
      ensures p[..end - begin] == View().data
    {
      var i := 0;
      while i < end - begin
        invariant 0 <= i <= end - begin
        invariant buf != null ==> p[..i] == buf[begin..begin + i]
      {
        p[i] := buf[begin + i];
        i := i + 1;
      }
    }

    method Expand(len: nat)
      requires Valid()
      modifies this
      ensures Layout() && View() == old(View()).Expand(len)
      ensures buf != null && fresh(buf)
    {
      hide Shadow.Valid;
      var nCap := Max(SLACK, Max(capacity * 2, end - begin + len));
      var p := new Byte[nCap];
      CopyTo(p);
      copied := copied + (end - begin);
      end := end - begin;
      begin := 0;
      buf := p;
      capacity := nCap;
    }

    /** Copies the `n` bytes at `from` to the start of the array. */
    method ShiftDown(from: nat, n: nat)
      requires buf != null && from + n <= buf.Length
      modifies buf
      ensures buf[..n] == old(buf[from..from + n])
    {
      var i := 0;
      while i < n
        invariant 0 <= i <= n
        invariant forall k :: 0 <= k < i ==> buf[k] == old(buf[from + k])
        invariant forall k :: from + i <= k < from + n ==> buf[k] == old(buf[k])
      {
        buf[i] := buf[from + i];
        i := i + 1;
      }
    }

    /** `moveHead` with the subtraction done before the begin index is zeroed. */
    method MoveHead()
      requires Valid() && buf != null
      modifies this, buf
      ensures Layout() && View() == old(View()).MoveHead() && buf == old(buf)
    {
      hide Shadow.Valid;
      ShiftDown(begin, end - begin);
      moved := moved + (end - begin);
      end := end - begin;
      begin := 0;
    }

    method MakeRoom()
      requires Valid()
      modifies this
      ensures Valid() && View() == old(View()).MakeRoom()
      ensures capacity - end >= SLACK
      ensures fresh(Repr() - old(Repr()))
    {
      if capacity - end < SLACK {
        Expand(0);
      }
    }

    method MakeRoomFor(len: nat)
      requires Valid()
      modifies Repr()
      ensures Valid() && View() == old(View()).MakeRoomFor(len)
      ensures capacity - end >= len
      ensures fresh(Repr() - old(Repr()))
    {
      if end + len <= capacity {
      } else if end - begin + len < capacity / 2 {
        MoveHead();
      } else {
        Expand(len);
      }
      appended := appended + len;
    }

    /** The caller has written `len` bytes at the end index; they become part of the contents. */
    method AddSize(len: nat)
      requires Valid() && len <= capacity - end
      modifies this
      ensures Valid() && buf == old(buf)
      ensures View() == old(View()).AddSize(if buf == null then [] else old(buf[end..end + len]))
    {
      hide Shadow.Valid;
      AddSizeValid(View(), if buf == null then [] else buf[end..end + len]);
      end := end + len;
      appended := appended + len;
      assert buf != null ==> buf[begin..end] == buf[begin..end - len] + buf[end - len..end];
    }

    method Consumed(len: nat)
      requires Valid() && len <= |View().data|
      modifies this
      ensures Valid() && View() == old(View()).Consumed(len)
      ensures Repr() <= old(Repr())
    {
      begin := begin + len;
      if end - begin == 0 {
        Clear();
      }
    }

    /** The copy at the end index and the `addSize` that follows it; the space was asked for already,
        so `appended` has counted it. */
    method PutTail(tail: seq<Byte>)
      requires Layout() && |tail| <= capacity - end
      modifies this`end, if buf == null then {} else {buf}
      ensures Layout() && View() == old(View()).(data := old(View()).data + tail)
    {
      var i, at := 0, end;
      while i < |tail|
        modifies if buf == null then {} else {buf}
        invariant 0 <= i <= |tail|
        invariant buf != null ==> buf[begin..at] == old(buf[begin..at])
        invariant buf != null ==> buf[at..at + i] == tail[..i]
      {
        buf[at + i] := tail[i];
        i := i + 1;
      }
      end := at + |tail|;
      assert buf != null ==> buf[begin..end] == buf[begin..at] + buf[at..end];
    }

    /** `read` into the free tail, followed by `addSize`. */
    method Receive(bytes: seq<Byte>)
      requires Valid() && |bytes| <= capacity - end
      modifies this, if buf == null then {} else {buf}
      ensures Valid() && View() == old(View()).AddSize(bytes) && buf == old(buf)
    {
      appended := appended + |bytes|;
      PutTail(bytes);
    }

    method Append(tail: seq<Byte>)
      requires Valid()
      modifies Repr()
      ensures Valid() && View() == old(View()).Append(tail)
      ensures fresh(Repr() - old(Repr()))
    {
      MakeRoomForLeavesLen(View(), |tail|);
      MakeRoomFor(|tail|);
      PutTail(tail);
    }

    /** `makeRoom(len)` as written: the test uses the begin index, and the compaction leaves the end index
        where it was. */
    method MakeRoomForAsWritten(len: nat)
      requires Valid()
      modifies Repr()
      ensures Layout() && fresh(Repr() - old(Repr()))
      ensures end + len <= capacity <==> AppendFits(old(View()), len)
      ensures AppendFits(old(View()), len) ==> View() == old(View()).MakeRoomFor(len)
    {
      if begin + len <= capacity {
      } else if end - begin + len < capacity / 2 {
        var keep := end;
        MoveHead();
        end := keep;   // m_end -= m_begin runs after m_begin = 0
      } else {
        Expand(len);
      }
      appended := appended + len;
    }

    /** `append` as written.  `ok` is false when the copy would leave the allocation; nothing is
        promised of the program after that, so the copy is not made. */
    method AppendAsWritten(tail: seq<Byte>) returns (ok: bool)
      requires Valid()
      modifies Repr()
      ensures ok <==> AppendFits(old(View()), |tail|)
      ensures ok ==> Valid() && View() == old(View()).Append(tail)
      ensures fresh(Repr() - old(Repr()))
    {
      MakeRoomForLeavesLen(View(), |tail|);
      MakeRoomForAsWritten(|tail|);
      ok := end + |tail| <= capacity;
      if ok {
        PutTail(tail);
      }
    }
  }
}
