/** Machine bytes and words, and the little-endian packing of words into bytes. */
module Bytes {

  type byte = bv8

  // Unsigned 32-bit integers that take part in counting and indexing.
  type word = x: int | 0 <= x < 0x1_0000_0000

  // What a 32-bit register keeps of x.
  function Wrap(x: nat): word { x % 0x1_0000_0000 }

  // The `len`-long run of zero bytes.
  function Zeros(len: nat): (z: seq<byte>)
    ensures |z| == len && forall i :: 0 <= i < len ==> z[i] == 0
  {
    seq(len, _ => 0)
  }

  /** Four bytes of a word, low-order byte first. */
  function WordBytes(w: bv32): (s: seq<byte>)
    ensures |s| == 4
  {
    [(w & 0xff) as bv8, ((w >> 8) & 0xff) as bv8, ((w >> 16) & 0xff) as bv8, ((w >> 24) & 0xff) as bv8]
  }

  function BytesWord(b0: byte, b1: byte, b2: byte, b3: byte): bv32 {
    (b0 as bv32) | ((b1 as bv32) << 8) | ((b2 as bv32) << 16) | ((b3 as bv32) << 24)
  }

  function PackWords(ws: seq<bv32>): (s: seq<byte>)
    ensures |s| == 4 * |ws|
  {
    if ws == [] then [] else WordBytes(ws[0]) + PackWords(ws[1..])
  }

  function UnpackWords(s: seq<byte>): (ws: seq<bv32>)
    requires |s| % 4 == 0
    ensures |ws| == |s| / 4
  {
    if s == [] then [] else [BytesWord(s[0], s[1], s[2], s[3])] + UnpackWords(s[4..])
  }

  lemma WordBytesInverse(w: bv32)
    ensures var s := WordBytes(w); BytesWord(s[0], s[1], s[2], s[3]) == w
  {
    assert BytesWord((w & 0xff) as bv8, ((w >> 8) & 0xff) as bv8,
                     ((w >> 16) & 0xff) as bv8, ((w >> 24) & 0xff) as bv8) == w;
  }

  /** Decoding the little-endian image of a word sequence gives the words back. */
  lemma {:induction false} UnpackPack(ws: seq<bv32>)
    ensures UnpackWords(PackWords(ws)) == ws
  {
    if ws != [] {
      WordBytesInverse(ws[0]);
      UnpackPack(ws[1..]);
      assert PackWords(ws)[4..] == PackWords(ws[1..]);
    }
  }

  lemma {:induction false} UnpackAt(s: seq<byte>, i: nat)
    requires |s| % 4 == 0 && 4 * i < |s|
    ensures UnpackWords(s)[i] == BytesWord(s[4 * i], s[4 * i + 1], s[4 * i + 2], s[4 * i + 3])
  {
    if i > 0 {
      UnpackAt(s[4..], i - 1);
    }
  }

  lemma {:induction false} PackAppend(ws: seq<bv32>, w: bv32)
    ensures PackWords(ws + [w]) == PackWords(ws) + WordBytes(w)
  {
    hide WordBytes;
    if ws == [] {
      assert PackWords([w]) == WordBytes(w) + PackWords([]);
    } else {
      PackAppend(ws[1..], w);
      assert (ws + [w])[1..] == ws[1..] + [w];
    }
  }
}
