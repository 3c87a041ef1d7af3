/** Bytes, 16-bit fields in little-endian order, and the concatenation of a list of byte strings. */
module Bytes {

  type Byte = b: int | 0 <= b < 256

  type Word16 = w: int | 0 <= w < 0x1_0000

  function Low(w: Word16): Byte { w % 256 }

  function High(w: Word16): Byte { w / 256 }

  function Word(lo: Byte, hi: Byte): Word16 { lo + 256 * hi }

  lemma WordOfParts(w: Word16)
    ensures Word(Low(w), High(w)) == w
  {
  }

  lemma PartsOfWord(lo: Byte, hi: Byte)
    ensures Low(Word(lo, hi)) == lo && High(Word(lo, hi)) == hi
  {
  }

  lemma Assoc(a: seq<Byte>, b: seq<Byte>, c: seq<Byte>)
    ensures a + b + c == a + (b + c)
  {
  }

  function Concat(parts: seq<seq<Byte>>): seq<Byte> {
    if parts == [] then [] else parts[0] + Concat(parts[1..])
  }

  lemma {:induction false} ConcatAppend(parts: seq<seq<Byte>>, more: seq<seq<Byte>>)
    ensures Concat(parts + more) == Concat(parts) + Concat(more)
  {
    if parts == [] {
      assert parts + more == more;
    } else {
      ConcatAppend(parts[1..], more);
      Assoc(parts[0], Concat(parts[1..]), Concat(more));
      assert (parts + more)[1..] == parts[1..] + more;
    }
  }

  lemma ConcatSnoc(parts: seq<seq<Byte>>, last: seq<Byte>)
    ensures Concat(parts + [last]) == Concat(parts) + last
  {
    ConcatAppend(parts, [last]);
    assert Concat([last]) == last + Concat([]);
  }
}
