/** The message digest of RFC 1321, written as the table-driven algorithm of its section 3. */
module Md5Rfc {
  import opened Bytes

  // The four chaining words A, B, C, D.
  datatype Regs<W> = Regs(a: W, b: W, c: W, d: W)

  type BlockIndex = k: nat | k < 16

  // What step i consumes: a word of the block, a rotation and an additive constant.
  datatype Entry<W> = Entry(word: BlockIndex, shift: bv5, sine: W)

  // The word operations of section 2, the auxiliary functions of section 3.4 and the schedule.
  // The steps below are stated over any of them; MACHINE holds the ones of the standard.
  datatype WordOps<!W> = WordOps(
    plus: (W, W) -> W, rotateLeft: (W, bv5) -> W, literal: bv32 -> W,
    f: (W, W, W) -> W, g: (W, W, W) -> W, h: (W, W, W) -> W, i: (W, W, W) -> W,
    entry: nat -> Entry<W>)

  function Plus(x: bv32, y: bv32): bv32 { x + y }

  function RotateLeft(x: bv32, n: bv5): bv32 { (x << n) | (x >> (32 - n as bv6)) }

  function F(x: bv32, y: bv32, z: bv32): bv32 { (x & y) | (!x & z) }
  function G(x: bv32, y: bv32, z: bv32): bv32 { (x & z) | (y & !z) }
  function H(x: bv32, y: bv32, z: bv32): bv32 { x ^ y ^ z }
  function I(x: bv32, y: bv32, z: bv32): bv32 { y ^ (x | !z) }

  const MACHINE: WordOps<bv32> := WordOps(Plus, RotateLeft, w => w, F, G, H, I, ScheduleEntry)

  const INITIAL: Regs<bv32> := Regs(0x67452301, 0xefcdab89, 0x98badcfe, 0x10325476)

  function Aux<W>(m: WordOps<W>, i: nat, x: W, y: W, z: W): W
    requires i < 64
  {
    if i < 16 then m.f(x, y, z) else if i < 32 then m.g(x, y, z) else if i < 48 then m.h(x, y, z) else m.i(x, y, z)
  }

  function WordIndex(i: nat): BlockIndex {
    if i < 16 then i
    else if i < 32 then (5 * i + 1) % 16
    else if i < 48 then (3 * i + 5) % 16
    else 7 * i % 16
  }

  // The step of round q (0 to 3) that consumes word k, found by inverting the multiplier modulo 16.
  function StepUsing(q: nat, k: BlockIndex): (i: nat)
    requires q < 4
    ensures 16 * q <= i < 16 * q + 16
  {
    16 * q + (match q case 0 => k case 1 => (13 * k + 3) % 16 case 2 => (11 * k + 9) % 16 case _ => 7 * k % 16)
  }

  lemma Remainder16(x: int, q: int, r: int)
    requires x == 16 * q + r && 0 <= r < 16
    ensures x % 16 == r
  {
  }

  lemma InvertTimes5(i: BlockIndex, k: BlockIndex)
    ensures (5 * i + 1) % 16 == k <==> i == (13 * k + 3) % 16
  {
    var a, b := (5 * i + 1) / 16, (13 * k + 3) / 16;
    if (5 * i + 1) % 16 == k {
      Remainder16(13 * k + 3, 4 * i + 1 - 13 * a, i);
    } else if i == (13 * k + 3) % 16 {
      Remainder16(5 * i + 1, 4 * k + 1 - 5 * b, k);
    }
  }

  lemma InvertTimes3(i: BlockIndex, k: BlockIndex)
    ensures (3 * i + 5) % 16 == k <==> i == (11 * k + 9) % 16
  {
    var a, b := (3 * i + 5) / 16, (11 * k + 9) / 16;
    if (3 * i + 5) % 16 == k {
      Remainder16(11 * k + 9, 2 * i + 4 - 11 * a, i);
    } else if i == (11 * k + 9) % 16 {
      Remainder16(3 * i + 5, 2 * k + 2 - 3 * b, k);
    }
  }

  lemma InvertTimes7(i: BlockIndex, k: BlockIndex)
    ensures 7 * i % 16 == k <==> i == 7 * k % 16
  {
    var a, b := 7 * i / 16, 7 * k / 16;
    if 7 * i % 16 == k {
      Remainder16(7 * k, 3 * i - 7 * a, i);
    } else if i == 7 * k % 16 {
      Remainder16(7 * i, 3 * k - 7 * b, k);
    }
  }

  /** Each round consumes each of the sixteen words exactly once. */
  lemma WordUsedOnce(q: nat, j: BlockIndex, k: BlockIndex)
    requires q < 4
    ensures WordIndex(16 * q + j) == k <==> 16 * q + j == StepUsing(q, k)
  {
    match q
    case 0 =>
    case 1 =>
      InvertTimes5(j, k);
      Remainder16(5 * (16 + j) + 1, 5 + (5 * j + 1) / 16, (5 * j + 1) % 16);
    case 2 =>
      InvertTimes3(j, k);
      Remainder16(3 * (32 + j) + 5, 6 + (3 * j + 5) / 16, (3 * j + 5) % 16);
    case _ =>
      InvertTimes7(j, k);
      Remainder16(7 * (48 + j), 21 + 7 * j / 16, 7 * j % 16);
  }

  function Pick(k: nat, s0: bv5, s1: bv5, s2: bv5, s3: bv5): bv5 {
    if k == 0 then s0 else if k == 1 then s1 else if k == 2 then s2 else s3
  }

  function ShiftAmount(i: nat): bv5 {
    if i < 16 then Pick(i % 4, 7, 12, 17, 22)
    else if i < 32 then Pick(i % 4, 5, 9, 14, 20)
    else if i < 48 then Pick(i % 4, 4, 11, 16, 23)
    else Pick(i % 4, 6, 10, 15, 21)
  }

  function SineRound1(j: nat): bv32 {
    match j
    case 0 => 0xd76aa478
    case 1 => 0xe8c7b756
    case 2 => 0x242070db
    case 3 => 0xc1bdceee
    case 4 => 0xf57c0faf
    case 5 => 0x4787c62a
    case 6 => 0xa8304613
    case 7 => 0xfd469501
    case 8 => 0x698098d8
    case 9 => 0x8b44f7af
    case 10 => 0xffff5bb1
    case 11 => 0x895cd7be
    case 12 => 0x6b901122
    case 13 => 0xfd987193
    case 14 => 0xa679438e
    case _ => 0x49b40821
  }

  function SineRound2(j: nat): bv32 {
    match j
    case 0 => 0xf61e2562
    case 1 => 0xc040b340
    case 2 => 0x265e5a51
    case 3 => 0xe9b6c7aa
    case 4 => 0xd62f105d
    case 5 => 0x02441453
    case 6 => 0xd8a1e681
    case 7 => 0xe7d3fbc8
    case 8 => 0x21e1cde6
    case 9 => 0xc33707d6
    case 10 => 0xf4d50d87
    case 11 => 0x455a14ed
    case 12 => 0xa9e3e905
    case 13 => 0xfcefa3f8
    case 14 => 0x676f02d9
    case _ => 0x8d2a4c8a
  }

  function SineRound3(j: nat): bv32 {
    match j
    case 0 => 0xfffa3942
    case 1 => 0x8771f681
    case 2 => 0x6d9d6122
    case 3 => 0xfde5380c
    case 4 => 0xa4beea44
    case 5 => 0x4bdecfa9
    case 6 => 0xf6bb4b60
    case 7 => 0xbebfbc70
    case 8 => 0x289b7ec6
    case 9 => 0xeaa127fa
    case 10 => 0xd4ef3085
    case 11 => 0x04881d05
    case 12 => 0xd9d4d039
    case 13 => 0xe6db99e5
    case 14 => 0x1fa27cf8
    case _ => 0xc4ac5665
  }

  function SineRound4(j: nat): bv32 {
    match j
    case 0 => 0xf4292244
    case 1 => 0x432aff97
    case 2 => 0xab9423a7
    case 3 => 0xfc93a039
    case 4 => 0x655b59c3
    case 5 => 0x8f0ccc92
    case 6 => 0xffeff47d
    case 7 => 0x85845dd1
    case 8 => 0x6fa87e4f
    case 9 => 0xfe2ce6e0
    case 10 => 0xa3014314
    case 11 => 0x4e0811a1
    case 12 => 0xf7537e82
    case 13 => 0xbd3af235
    case 14 => 0x2ad7d2bb
    case _ => 0xeb86d391
  }

  // The integer part of 2^32 * abs(sin(i + 1)).
  function Sine(i: nat): bv32 {
    if i < 16 then SineRound1(i)
    else if i < 32 then SineRound2(i - 16)
    else if i < 48 then SineRound3(i - 32)
    else SineRound4(i - 48)
  }

  function ScheduleEntry(i: nat): Entry<bv32> { Entry(WordIndex(i), ShiftAmount(i), Sine(i)) }

  // ((a + (aux(b, c, d) + X[k] + T[i])) <<< s) + b
  function NewWord<W>(m: WordOps<W>, r: Regs<W>, x: seq<W>, i: nat): W
    requires |x| == 16 && i < 64
  {
    var e := m.entry(i);
    var sum := m.plus(m.plus(Aux(m, i, r.b, r.c, r.d), x[e.word]), e.sine);
    m.plus(m.rotateLeft(m.plus(r.a, sum), e.shift), r.b)
  }

  // One step computes a new word and rotates the registers by one place.
  function Step<W>(m: WordOps<W>, r: Regs<W>, x: seq<W>, i: nat): Regs<W>
    requires |x| == 16 && i < 64
  {
    Regs(r.d, NewWord(m, r, x, i), r.b, r.c)
  }

  // n steps, starting with step number i.
  function Steps<W>(m: WordOps<W>, r: Regs<W>, x: seq<W>, i: nat, n: nat): Regs<W>
    requires |x| == 16 && i + n <= 64
  {
    if n == 0 then r else Step(m, Steps(m, r, x, i, n - 1), x, i + n - 1)
  }

  lemma {:induction false} StepsCompose<W>(m: WordOps<W>, r: Regs<W>, x: seq<W>, i: nat, n: nat, k: nat)
    requires |x| == 16 && i + n + k <= 64
    ensures Steps(m, Steps(m, r, x, i, n), x, i + n, k) == Steps(m, r, x, i, n + k)
  {
    if k > 0 {
      StepsCompose(m, r, x, i, n, k - 1);
    }
  }

  function AddRegs(r: Regs<bv32>, s: Regs<bv32>): Regs<bv32> {
    Regs(Plus(r.a, s.a), Plus(r.b, s.b), Plus(r.c, s.c), Plus(r.d, s.d))
  }

  type Block = b: seq<byte> | |b| == 64 witness Zeros(64)

  function Compress(r: Regs<bv32>, block: Block): Regs<bv32> {
    var x := UnpackWords(block);
    AddRegs(r, Steps(MACHINE, r, x, 0, 4 * |x|))
  }

  // Folds a compression function over whole 64-byte blocks, left to right.
  function Absorb<S>(f: (S, Block) -> S, r: S, s: seq<byte>): S
    requires |s| % 64 == 0
    decreases |s|
  {
    if s == [] then r else Absorb(f, f(r, s[..64]), s[64..])
  }

  lemma {:induction false} AbsorbAppend<S>(f: (S, Block) -> S, r: S, s: seq<byte>, block: Block)
    requires |s| % 64 == 0
    ensures Absorb(f, r, s + block) == f(Absorb(f, r, s), block)
    decreases |s|
  {
    if s == [] {
      assert s + block == block && block[..64] == block && block[64..] == [];
    } else {
      AbsorbAppend(f, f(r, s[..64]), s[64..], block);
      assert (s + block)[..64] == s[..64] && (s + block)[64..] == s[64..] + block;
    }
  }

  function LowWord(n: nat): word { Wrap(8 * n) }
  function HighWord(n: nat): word { Wrap(8 * n / 0x1_0000_0000) }

  // The bit length modulo 2^64, as two words, low-order word first.
  function LengthField(n: nat): (s: seq<byte>)
    ensures |s| == 8
  {
    PackWords([LowWord(n) as bv32, HighWord(n) as bv32])
  }

  // Zero bytes between the 0x80 and the length: the one count below 64 that leaves 56 modulo 64.
  function PadZeros(n: nat): (k: nat)
    ensures k < 64 && (n + 1 + k) % 64 == 56
  {
    (119 - n % 64) % 64
  }

  function Pad(m: seq<byte>): (p: seq<byte>)
    ensures |p| % 64 == 0 && m <= p
  {
    var k := PadZeros(|m|);
    assert (|m| + 1 + k + 8) % 64 == 0;
    m + [0x80] + Zeros(k) + LengthField(|m|)
  }

  function RegsBytes(r: Regs<bv32>): (s: seq<byte>)
    ensures |s| == 16
  {
    PackWords([r.a, r.b, r.c, r.d])
  }

  // Written byte by byte, so that mentioning a digest does not unfold its computation.
  function Digest(m: seq<byte>): (s: seq<byte>)
    ensures |s| == 16
  {
    seq(16, i requires 0 <= i < 16 => RegsBytes(Absorb(Compress, INITIAL, Pad(m)))[i])
  }

  lemma DigestValue(m: seq<byte>)
    ensures Digest(m) == RegsBytes(Absorb(Compress, INITIAL, Pad(m)))
  {
    var d := RegsBytes(Absorb(Compress, INITIAL, Pad(m)));
    assert forall i :: 0 <= i < 16 ==> Digest(m)[i] == d[i];
  }
}
