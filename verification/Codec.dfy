/**
 The report framing of codec/tiny_codec.cxx:
   one byte 0x3f, a 16-bit length that counts everything after that byte, a 16-bit type,
   four checksum bytes that must be zero, and the body.
 16-bit fields are little-endian.
 */
module Codec {
  import opened Bytes
  import opened Buffers

  const MARK: Byte := 0x3f

  datatype Rpt = Rpt(len: Word16, kind: Word16, body: seq<Byte>)

  /** The length field of a report covers its 8 header bytes and its body. */
  predicate WellFormed(r: Rpt) { r.len == 8 + |r.body| }

  /** `Fault`: the length field is below 8, so the body size wraps around to nearly 2^64 and the
      allocation for it throws. */
  datatype Decoded = Got(used: nat, rpt: Rpt) | NeedMore | Bad | Fault

  function Header(len: Word16, kind: Word16): seq<Byte> {
    [MARK, Low(len), High(len), Low(kind), High(kind), 0, 0, 0, 0]
  }

  function Frame(r: Rpt): seq<Byte> {
    Header(r.len, r.kind) + r.body
  }

  function Frames(rs: seq<Rpt>): seq<Byte> {
    if rs == [] then [] else Frame(rs[0]) + Frames(rs[1..])
  }

  /** The result of decoding once the header bytes can be read from `mem`, of which the first `len`
      bytes are the buffer's contents. */
  function DecodeHeader(mem: seq<Byte>, len: nat): Decoded
    requires len <= |mem| && 9 <= |mem|
  {
    var rptLen := Word(mem[1], mem[2]);
    if mem[5..9] != [0, 0, 0, 0] then Bad
    else if len < 1 + rptLen then NeedMore
    else if rptLen < 8 then Fault
    else Got(1 + rptLen, Rpt(rptLen, Word(mem[3], mem[4]), mem[9..1 + rptLen]))
  }

  /** `decode`, answering "not enough data" until the 9 header bytes have arrived. */
  function Decode(data: seq<Byte>): Decoded {
    if |data| == 0 then NeedMore
    else if data[0] != MARK then Bad
    else if |data| < 9 then NeedMore
    else DecodeHeader(data, |data|)
  }

  /** `decode` as written: the header is read before its 9 bytes are known to be there
      (codec/tiny_codec.cxx:55-57).  `beyond` is what the allocation holds after the contents. */
  function DecodeAsWritten(data: seq<Byte>, beyond: seq<Byte>): Decoded
    requires |beyond| >= 8
  {
    if |data| == 0 then NeedMore
    else if data[0] != MARK then Bad
    else DecodeHeader(data + beyond, |data|)
  }

  /** True when the code as written reads no header byte that has not arrived. */
  predicate HeaderArrived(data: seq<Byte>) {
    |data| == 0 || data[0] != MARK || |data| >= 9
  }

  lemma DecodeAsWrittenAgrees(data: seq<Byte>, beyond: seq<Byte>)
    requires |beyond| >= 8 && HeaderArrived(data)
    ensures DecodeAsWritten(data, beyond) == Decode(data)
  {
    if |data| >= 9 {
      var mem := data + beyond;
      assert mem[5..9] == data[5..9];
      var rptLen := Word(data[1], data[2]);
      if 8 <= rptLen < |data| {
        assert mem[9..1 + rptLen] == data[9..1 + rptLen];
      }
    }
  }

  /** The code as written depends on stale memory exactly when the buffer ends inside a header. */
  lemma DecodeAsWrittenExact(data: seq<Byte>)
    ensures (forall beyond: seq<Byte> | |beyond| >= 8 :: DecodeAsWritten(data, beyond) == Decode(data))
            <==> HeaderArrived(data)
  {
    if HeaderArrived(data) {
      forall beyond: seq<Byte> | |beyond| >= 8
        ensures DecodeAsWritten(data, beyond) == Decode(data)
      {
        DecodeAsWrittenAgrees(data, beyond);
      }
    } else {
      var ones: seq<Byte> := seq(8, i => 1);
      assert (data + ones)[5..9][3] == 1;
      assert DecodeAsWritten(data, ones) == Bad;
    }
  }

  // ---- Encoding and decoding are inverse ----

  lemma HeaderFields(data: seq<Byte>, len: Word16, kind: Word16)
    requires 9 <= |data| && data[..9] == Header(len, kind)
    ensures data[0] == MARK && Word(data[1], data[2]) == len && Word(data[3], data[4]) == kind
    ensures data[5..9] == [0, 0, 0, 0]
  {
    WordOfParts(len);
    WordOfParts(kind);
    assert data[5..9] == data[..9][5..9];
    assert data[0] == data[..9][0] && data[1] == data[..9][1] && data[2] == data[..9][2];
    assert data[3] == data[..9][3] && data[4] == data[..9][4];
  }

  lemma RoundTrip(r: Rpt, rest: seq<Byte>)
    requires WellFormed(r)
    ensures Decode(Frame(r) + rest) == Got(|Frame(r)|, r)
  {
    var data := Frame(r) + rest;
    assert data[..9] == Header(r.len, r.kind);
    HeaderFields(data, r.len, r.kind);
    assert data[9..1 + r.len] == r.body;
  }

  lemma DecodedIsFrame(data: seq<Byte>)
    requires Decode(data).Got?
    ensures var d := Decode(data);
            d.used <= |data| && WellFormed(d.rpt) && data[..d.used] == Frame(d.rpt)
  {
    hide Low, High, Word;
    var r := Decode(data).rpt;
    PartsOfWord(data[1], data[2]);
    PartsOfWord(data[3], data[4]);
    HeaderOf(data, r.len, r.kind);
    assert data[..1 + r.len] == data[..9] + data[9..1 + r.len];
  }

  lemma HeaderOf(data: seq<Byte>, len: Word16, kind: Word16)
    requires 9 <= |data| && data[0] == MARK && data[5..9] == [0, 0, 0, 0]
    requires data[1] == Low(len) && data[2] == High(len) && data[3] == Low(kind) && data[4] == High(kind)
    ensures data[..9] == Header(len, kind)
  {
    hide Low, High;
    var crc := data[5..9];
    assert data[5] == crc[0] && data[6] == crc[1] && data[7] == crc[2] && data[8] == crc[3];
  }

  /** Decoding succeeds exactly on the data that starts with the frame of a well-formed report. */
  lemma GotIffFrame(data: seq<Byte>, r: Rpt)
    ensures Decode(data) == Got(|Frame(r)|, r) <==> WellFormed(r) && Frame(r) <= data
  {
    if WellFormed(r) && Frame(r) <= data {
      assert data == Frame(r) + data[|Frame(r)|..];
      RoundTrip(r, data[|Frame(r)|..]);
    }
    if Decode(data) == Got(|Frame(r)|, r) {
      DecodedIsFrame(data);
    }
  }

  lemma ProperPrefixNeedsMore(r: Rpt, n: nat)
    requires WellFormed(r) && n < |Frame(r)|
    ensures Decode(Frame(r)[..n]) == NeedMore
  {
    var part := Frame(r)[..n];
    if n >= 9 {
      assert part[..9] == Header(r.len, r.kind);
      HeaderFields(part, r.len, r.kind);
    }
  }

  /** Where each field of a frame lies. */
  lemma FrameBytes(r: Rpt)
    ensures var f := Frame(r);
            && |f| == 9 + |r.body| && f[0] == 63
            && f[1] as int + 256 * (f[2] as int) == r.len && f[3] as int + 256 * (f[4] as int) == r.kind
            && f[5] == f[6] == f[7] == f[8] == 0 && f[9..] == r.body
  {
    WordOfParts(r.len);
    WordOfParts(r.kind);
  }

  /** Data that no further bytes can mend: the first byte is wrong, or one of the four checksum bytes. */
  predicate Damaged(data: seq<Byte>) {
    data != [] && (data[0] != 63 || (|data| >= 9 && !(data[5] == data[6] == data[7] == data[8] == 0)))
  }

  /** A sound header whose length field is below 8. */
  predicate Undersized(data: seq<Byte>) {
    |data| >= 9 && data[0] == 63 && data[5] == data[6] == data[7] == data[8] == 0 && data[1] as int + 256 * (data[2] as int) < 8
  }

  /** Part of a header, or a proper prefix of a frame. */
  ghost predicate AwaitsMore(data: seq<Byte>) {
    data == [] || (data[0] == 63 && (|data| < 9 || exists r :: WellFormed(r) && data < Frame(r)))
  }

  /** When `decode` answers that the data is wrong, that it fails on the length field, and that it needs more. */
  lemma DecodeRejectsExact(data: seq<Byte>)
    ensures Decode(data) == Bad <==> Damaged(data)
    ensures Decode(data) == Fault <==> Undersized(data)
    ensures Decode(data) == NeedMore <==> AwaitsMore(data)
  {
    if |data| >= 9 {
      assert data[5..9] == [data[5], data[6], data[7], data[8]];
      forall r | WellFormed(r) && data < Frame(r)
        ensures Decode(data) == NeedMore
      {
        assert Frame(r)[..|data|] == data;
        ProperPrefixNeedsMore(r, |data|);
      }
      if Decode(data) == NeedMore {
        var r := Completed(data);
        assert WellFormed(r) && data < Frame(r);
      }
    }
  }

  /** A frame that begins with the data. */
  lemma Completed(data: seq<Byte>) returns (r: Rpt)
    requires |data| >= 9 && Decode(data) == NeedMore
    ensures WellFormed(r) && data < Frame(r)
  {
    hide Low, High, Word;
    var len, kind := Word(data[1], data[2]), Word(data[3], data[4]);
    PartsOfWord(data[1], data[2]);
    PartsOfWord(data[3], data[4]);
    HeaderOf(data, len, kind);
    r := Rpt(len, kind, data[9..] + seq(1 + len - |data|, _ => 0));
    assert data == data[..9] + data[9..];
    assert Frame(r) == data + seq(1 + len - |data|, _ => 0);
  }

  /** What has been decoded, or found to be wrong, does not change when more bytes arrive. */
  lemma DecodeExtends(data: seq<Byte>, more: seq<Byte>)
    requires Decode(data) != NeedMore
    ensures Decode(data + more) == Decode(data)
  {
    if data[0] == MARK {
      var all := data + more;
      assert all[5..9] == data[5..9];
      var rptLen := Word(data[1], data[2]);
      if 8 <= rptLen < |data| {
        assert all[9..1 + rptLen] == data[9..1 + rptLen];
      }
    }
  }

  lemma PrefixFree(a: Rpt, b: Rpt)
    requires WellFormed(a) && WellFormed(b) && Frame(a) <= Frame(b)
    ensures a == b
  {
    GotIffFrame(Frame(b), a);
    GotIffFrame(Frame(b), b);
  }

  lemma {:induction false} FramesInjective(xs: seq<Rpt>, ys: seq<Rpt>)
    requires (forall r | r in xs :: WellFormed(r)) && (forall r | r in ys :: WellFormed(r))
    requires Frames(xs) == Frames(ys)
    ensures xs == ys
  {
    if xs == [] || ys == [] {
      assert |Frames(xs)| == 0 ==> xs == [];
    } else {
      RoundTrip(xs[0], Frames(xs[1..]));
      RoundTrip(ys[0], Frames(ys[1..]));
      assert Frames(xs)[|Frame(xs[0])|..] == Frames(xs[1..]);
      assert Frames(ys)[|Frame(ys[0])|..] == Frames(ys[1..]);
      FramesInjective(xs[1..], ys[1..]);
    }
  }

  lemma {:induction false} FramesAppend(xs: seq<Rpt>, ys: seq<Rpt>)
    ensures Frames(xs + ys) == Frames(xs) + Frames(ys)
  {
    if xs == [] {
      assert xs + ys == ys;
    } else {
      FramesAppend(xs[1..], ys);
      Assoc(Frame(xs[0]), Frames(xs[1..]), Frames(ys));
      assert (xs + ys)[1..] == xs[1..] + ys;
    }
  }

  // ---- encode ----

  /** Fills the local header array field by field. */
  method FillHeader(r: Rpt) returns (temp: array<Byte>)
    ensures fresh(temp) && temp[..] == Header(r.len, r.kind)
  {
    temp := new Byte[9](i => 0);
    var offset := 0;
    temp[0] := MARK;
    offset := offset + 1;
    temp[offset], temp[offset + 1] := Low(r.len), High(r.len);
    offset := offset + 2;
    temp[offset], temp[offset + 1] := Low(r.kind), High(r.kind);
    offset := offset + 2;
    temp[offset], temp[offset + 1], temp[offset + 2], temp[offset + 3] := 0, 0, 0, 0;
  }

  method Encode(r: Rpt) returns (b: Buffer)
    ensures b.Valid() && fresh(b.Repr()) && b.View().data == Frame(r)
  {
    var temp := FillHeader(r);
    b := new Buffer();
    b.Append(temp[..]);
    b.Append(r.body);
  }

  /** With `append` as written, encoding stays inside the allocation, and then yields the frame,
      exactly for bodies outside 504..512 bytes. */
  method EncodeAsWritten(r: Rpt) returns (b: Buffer, ok: bool)
    ensures ok <==> !(504 <= |r.body| <= 512)
    ensures ok ==> b.Valid() && fresh(b.Repr()) && b.View().data == Frame(r)
  {
    var temp := FillHeader(r);
    b := new Buffer();
    ok := b.AppendAsWritten(temp[..]);
    AppendFitsAtHead(b.View(), |r.body|);
    ok := b.AppendAsWritten(r.body);
  }
}
