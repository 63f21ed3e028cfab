/** The digest of the 26 letters worked out step by step, one of the test vectors in appendix A.5 of RFC 1321. */
module Md5Known {
  import opened Bytes
  import opened Md5Rfc
  import opened Md5Transform

  // "abcdefghijklmnopqrstuvwxyz"
  function Letters(): (s: seq<byte>)
    ensures |s| == 26
  {
    seq(26, i requires 0 <= i < 26 => 97 + i as byte)
  }

  // The words of its one padded block.
  ghost predicate LetterBlock(x: seq<bv32>) {
    && |x| == 16
    && x[0] == 0x64636261 && x[1] == 0x68676665 && x[2] == 0x6c6b6a69 && x[3] == 0x706f6e6d
    && x[4] == 0x74737271 && x[5] == 0x78777675 && x[6] == 0x00807a79 && x[7] == 0
    && x[8] == 0 && x[9] == 0 && x[10] == 0 && x[11] == 0
    && x[12] == 0 && x[13] == 0 && x[14] == 0x000000d0 && x[15] == 0
  }

  // The words that pass through the registers: step i replaces word i by word i + 4.

  function Word1(j: nat): bv32 {
    match j
    case 0 => 0x67452301
    case 1 => 0x10325476
    case 2 => 0x98badcfe
    case 3 => 0xefcdab89
    case 4 => 0xd6d117a6
    case 5 => 0xaab1aaaa
    case 6 => 0x227d8cf1
    case 7 => 0x4503b812
    case 8 => 0xfe15f787
    case 9 => 0xa811b278
    case 10 => 0xb71122fc
    case 11 => 0xda9bbb0d
    case 12 => 0xae752899
    case 13 => 0x2bbe757f
    case 14 => 0x7d4bd80b
    case 15 => 0x56cfa5cb
    case _ => 0x1754a316
  }

  function Word2(j: nat): bv32 {
    match j
    case 0 => 0x85567d90
    case 1 => 0x00df74d5
    case 2 => 0x608d6b7e
    case 3 => 0x2d8071cc
    case 4 => 0x5dcee119
    case 5 => 0xedfe7e4b
    case 6 => 0x4c2145b3
    case 7 => 0x570c43e0
    case 8 => 0x977efd2a
    case 9 => 0xc28ab49d
    case 10 => 0xc9f162d4
    case 11 => 0x25bfae3b
    case 12 => 0x89980104
    case 13 => 0xf8c8365f
    case 14 => 0xe6d3b398
    case 15 => 0xf54d8710
    case _ => 0x927b72e2
  }

  function Word3(j: nat): bv32 {
    match j
    case 0 => 0x2e69afc7
    case 1 => 0xaeb35766
    case 2 => 0xb4bf680e
    case 3 => 0x4c8ffa80
    case 4 => 0x2361ed0a
    case 5 => 0x06a5e211
    case 6 => 0xb9c0c733
    case 7 => 0xf1e6dc7a
    case 8 => 0x23a9451b
    case 9 => 0x8d41bf99
    case 10 => 0xa3e88ead
    case 11 => 0x02c0b11c
    case 12 => 0x66f6468d
    case 13 => 0x90a35af5
    case 14 => 0xb5d41f9c
    case 15 => 0xa04b4904
    case _ => 0x703d54d8
  }

  function Word4(j: nat): bv32 {
    match j
    case 0 => 0x71d10367
    case 1 => 0xfc32dd6e
    case 2 => 0x65456b34
    case 3 => 0xb35602cb
    case 4 => 0x33edb197
    case 5 => 0xc1e942f1
    case 6 => 0xd9bb987c
    case 7 => 0x23a68048
    case 8 => 0x83877d1b
    case 9 => 0x0077c208
    case 10 => 0x847fc2e7
    case 11 => 0xa3e2247f
    case 12 => 0x5e6bc930
    case 13 => 0x708ed9c2
    case 14 => 0x2baf1354
    case 15 => 0xd38f1e7f
    case _ => 0x1116e6d8
  }

  function StepWord(j: nat): bv32 {
    if j < 17 then Word1(j) else if j < 34 then Word2(j - 17) else if j < 51 then Word3(j - 34) else Word4(j - 51)
  }

  // The registers before step i.
  function Before(i: nat): Regs<bv32> { Regs(StepWord(i), StepWord(i + 3), StepWord(i + 2), StepWord(i + 1)) }

  // ---------- the steps ----------

  lemma StepsFrom0(x: seq<bv32>)
    requires LetterBlock(x)
    ensures Step(MACHINE, Before(0), x, 0) == Before(1)
    ensures Step(MACHINE, Before(1), x, 1) == Before(2)
    ensures Step(MACHINE, Before(2), x, 2) == Before(3)
    ensures Step(MACHINE, Before(3), x, 3) == Before(4)
  {
    hide ScheduleEntry;
    MachineEntries0();
  }

  lemma StepsFrom4(x: seq<bv32>)
    requires LetterBlock(x)
    ensures Step(MACHINE, Before(4), x, 4) == Before(5)
    ensures Step(MACHINE, Before(5), x, 5) == Before(6)
    ensures Step(MACHINE, Before(6), x, 6) == Before(7)
    ensures Step(MACHINE, Before(7), x, 7) == Before(8)
  {
    hide ScheduleEntry;
    MachineEntries4();
  }

  lemma StepsFrom8(x: seq<bv32>)
    requires LetterBlock(x)
    ensures Step(MACHINE, Before(8), x, 8) == Before(9)
    ensures Step(MACHINE, Before(9), x, 9) == Before(10)
    ensures Step(MACHINE, Before(10), x, 10) == Before(11)
    ensures Step(MACHINE, Before(11), x, 11) == Before(12)
  {
    hide ScheduleEntry;
    MachineEntries8();
  }

  lemma StepsFrom12(x: seq<bv32>)
    requires LetterBlock(x)
    ensures Step(MACHINE, Before(12), x, 12) == Before(13)
    ensures Step(MACHINE, Before(13), x, 13) == Before(14)
    ensures Step(MACHINE, Before(14), x, 14) == Before(15)
    ensures Step(MACHINE, Before(15), x, 15) == Before(16)
  {
    hide ScheduleEntry;
    MachineEntries12();
  }

  lemma StepsFrom16(x: seq<bv32>)
    requires LetterBlock(x)
    ensures Step(MACHINE, Before(16), x, 16) == Before(17)
    ensures Step(MACHINE, Before(17), x, 17) == Before(18)
    ensures Step(MACHINE, Before(18), x, 18) == Before(19)
    ensures Step(MACHINE, Before(19), x, 19) == Before(20)
  {
    hide ScheduleEntry;
    MachineEntries16();
  }

  lemma StepsFrom20(x: seq<bv32>)
    requires LetterBlock(x)
    ensures Step(MACHINE, Before(20), x, 20) == Before(21)
    ensures Step(MACHINE, Before(21), x, 21) == Before(22)
    ensures Step(MACHINE, Before(22), x, 22) == Before(23)
    ensures Step(MACHINE, Before(23), x, 23) == Before(24)
  {
    hide ScheduleEntry;
    MachineEntries20();
  }

  lemma StepsFrom24(x: seq<bv32>)
    requires LetterBlock(x)
    ensures Step(MACHINE, Before(24), x, 24) == Before(25)
    ensures Step(MACHINE, Before(25), x, 25) == Before(26)
    ensures Step(MACHINE, Before(26), x, 26) == Before(27)
    ensures Step(MACHINE, Before(27), x, 27) == Before(28)
  {
    hide ScheduleEntry;
    MachineEntries24();
  }

  lemma StepsFrom28(x: seq<bv32>)
    requires LetterBlock(x)
    ensures Step(MACHINE, Before(28), x, 28) == Before(29)
    ensures Step(MACHINE, Before(29), x, 29) == Before(30)
    ensures Step(MACHINE, Before(30), x, 30) == Before(31)
    ensures Step(MACHINE, Before(31), x, 31) == Before(32)
  {
    hide ScheduleEntry;
    MachineEntries28();
  }

  lemma StepsFrom32(x: seq<bv32>)
    requires LetterBlock(x)
    ensures Step(MACHINE, Before(32), x, 32) == Before(33)
    ensures Step(MACHINE, Before(33), x, 33) == Before(34)
    ensures Step(MACHINE, Before(34), x, 34) == Before(35)
    ensures Step(MACHINE, Before(35), x, 35) == Before(36)
  {
    hide ScheduleEntry;
    MachineEntries32();
  }

  lemma StepsFrom36(x: seq<bv32>)
    requires LetterBlock(x)
    ensures Step(MACHINE, Before(36), x, 36) == Before(37)
    ensures Step(MACHINE, Before(37), x, 37) == Before(38)
    ensures Step(MACHINE, Before(38), x, 38) == Before(39)
    ensures Step(MACHINE, Before(39), x, 39) == Before(40)
  {
    hide ScheduleEntry;
    MachineEntries36();
  }

  lemma StepsFrom40(x: seq<bv32>)
    requires LetterBlock(x)
    ensures Step(MACHINE, Before(40), x, 40) == Before(41)
    ensures Step(MACHINE, Before(41), x, 41) == Before(42)
    ensures Step(MACHINE, Before(42), x, 42) == Before(43)
    ensures Step(MACHINE, Before(43), x, 43) == Before(44)
  {
    hide ScheduleEntry;
    MachineEntries40();
  }

  lemma StepsFrom44(x: seq<bv32>)
    requires LetterBlock(x)
    ensures Step(MACHINE, Before(44), x, 44) == Before(45)
    ensures Step(MACHINE, Before(45), x, 45) == Before(46)
    ensures Step(MACHINE, Before(46), x, 46) == Before(47)
    ensures Step(MACHINE, Before(47), x, 47) == Before(48)
  {
    hide ScheduleEntry;
    MachineEntries44();
  }

  lemma StepsFrom48(x: seq<bv32>)
    requires LetterBlock(x)
    ensures Step(MACHINE, Before(48), x, 48) == Before(49)
    ensures Step(MACHINE, Before(49), x, 49) == Before(50)
    ensures Step(MACHINE, Before(50), x, 50) == Before(51)
    ensures Step(MACHINE, Before(51), x, 51) == Before(52)
  {
    hide ScheduleEntry;
    MachineEntries48();
  }

  lemma StepsFrom52(x: seq<bv32>)
    requires LetterBlock(x)
    ensures Step(MACHINE, Before(52), x, 52) == Before(53)
    ensures Step(MACHINE, Before(53), x, 53) == Before(54)
    ensures Step(MACHINE, Before(54), x, 54) == Before(55)
    ensures Step(MACHINE, Before(55), x, 55) == Before(56)
  {
    hide ScheduleEntry;
    MachineEntries52();
  }

  lemma StepsFrom56(x: seq<bv32>)
    requires LetterBlock(x)
    ensures Step(MACHINE, Before(56), x, 56) == Before(57)
    ensures Step(MACHINE, Before(57), x, 57) == Before(58)
    ensures Step(MACHINE, Before(58), x, 58) == Before(59)
    ensures Step(MACHINE, Before(59), x, 59) == Before(60)
  {
    hide ScheduleEntry;
    MachineEntries56();
  }

  lemma StepsFrom60(x: seq<bv32>)
    requires LetterBlock(x)
    ensures Step(MACHINE, Before(60), x, 60) == Before(61)
    ensures Step(MACHINE, Before(61), x, 61) == Before(62)
    ensures Step(MACHINE, Before(62), x, 62) == Before(63)
    ensures Step(MACHINE, Before(63), x, 63) == Before(64)
  {
    hide ScheduleEntry;
    MachineEntries60();
  }

  lemma NextStep(x: seq<bv32>, i: nat)
    requires LetterBlock(x) && i < 64
    ensures Step(MACHINE, Before(i), x, i) == Before(i + 1)
  {
    hide Step, Before;
    if i < 16 {
      StepsFrom0(x);
      StepsFrom4(x);
      StepsFrom8(x);
      StepsFrom12(x);
    } else if i < 32 {
      StepsFrom16(x);
      StepsFrom20(x);
      StepsFrom24(x);
      StepsFrom28(x);
    } else if i < 48 {
      StepsFrom32(x);
      StepsFrom36(x);
      StepsFrom40(x);
      StepsFrom44(x);
    } else {
      StepsFrom48(x);
      StepsFrom52(x);
      StepsFrom56(x);
      StepsFrom60(x);
    }
  }

  lemma {:induction false} StepsReach(x: seq<bv32>, n: nat)
    requires LetterBlock(x) && n <= 64
    ensures Steps(MACHINE, Before(0), x, 0, n) == Before(n)
  {
    hide Step, Before, LetterBlock;
    if n > 0 {
      StepsReach(x, n - 1);
      NextStep(x, n - 1);
    }
  }

  // ---------- the block and the digest ----------

  lemma LetterPadding()
    ensures Pad(Letters()) == Letters() + [0x80] + Zeros(29) + [208, 0, 0, 0, 0, 0, 0, 0]
  {
    hide Letters, LengthField, Zeros, PadZeros;
    LetterLength();
    LetterZeros();
  }

  lemma LetterZeros()
    ensures |Letters()| == 26 && PadZeros(26) == 29
  {
  }

  lemma LetterLength()
    ensures LengthField(26) == [208, 0, 0, 0, 0, 0, 0, 0]
  {
    hide WordBytes;
    LengthWords();
    LengthBytes();
    var ws: seq<bv32> := [208, 0];
    assert ws[1..] == [0 as bv32] && ws[1..][1..] == [];
    assert PackWords(ws) == WordBytes(208) + (WordBytes(0) + []);
  }

  lemma LengthWords()
    ensures LowWord(26) as bv32 == 208 && HighWord(26) as bv32 == 0
  {
    hide LowWord, HighWord;
    LengthCounts();
  }

  lemma LengthCounts()
    ensures LowWord(26) == 208 && HighWord(26) == 0
  {
  }

  lemma LengthBytes()
    ensures WordBytes(208) == [208, 0, 0, 0] && WordBytes(0) == [0, 0, 0, 0]
  {
  }

  // The bytes of the block.
  function LetterByte(j: nat): byte {
    if j < 26 then 97 + j as byte else if j == 26 then 0x80 else if j == 56 then 208 else 0
  }

  lemma PaddedByte(j: nat)
    requires j < 64
    ensures |Pad(Letters())| == 64 && Pad(Letters())[j] == LetterByte(j)
  {
    hide Pad;
    LetterPadding();
  }

  lemma FirstWords()
    ensures BytesWord(97, 98, 99, 100) == 0x64636261 && BytesWord(101, 102, 103, 104) == 0x68676665
    ensures BytesWord(105, 106, 107, 108) == 0x6c6b6a69 && BytesWord(109, 110, 111, 112) == 0x706f6e6d
    ensures BytesWord(113, 114, 115, 116) == 0x74737271 && BytesWord(117, 118, 119, 120) == 0x78777675
    ensures BytesWord(121, 122, 0x80, 0) == 0x00807a79 && BytesWord(208, 0, 0, 0) == 0x000000d0
    ensures BytesWord(0, 0, 0, 0) == 0
  {
  }

  ghost predicate LetterBytes(p: seq<byte>) { |p| == 64 && forall j :: 0 <= j < 64 ==> p[j] == LetterByte(j) }

  lemma LettersUnpacked(p: seq<byte>)
    requires LetterBytes(p)
    ensures LetterBlock(UnpackWords(p))
  {
    hide UnpackWords, BytesWord;
    FirstWords();
    forall i | 0 <= i < 16
      ensures UnpackWords(p)[i] == BytesWord(LetterByte(4 * i), LetterByte(4 * i + 1),
                                             LetterByte(4 * i + 2), LetterByte(4 * i + 3))
    {
      UnpackAt(p, i);
    }
  }

  lemma OneBlock(f: (Regs<bv32>, Block) -> Regs<bv32>, r: Regs<bv32>, block: Block)
    ensures Absorb(f, r, block) == f(r, block)
  {
    assert block[..64] == block && block[64..] == [];
    assert Absorb(f, f(r, block), []) == f(r, block);
  }

  // The registers after the block.
  lemma LettersCompressed(p: Block)
    requires LetterBytes(p)
    ensures Compress(INITIAL, p) == Regs(0xd7d3fcc3, 0x00e49261, 0x6c49fb7d, 0x3be167ca)
  {
    hide Step, Steps, UnpackWords, LetterBlock, LetterBytes;
    var x := UnpackWords(p);
    LettersUnpacked(p);
    BlockHasWords(x);
    StepsReach(x, 64);
  }

  lemma BlockHasWords(x: seq<bv32>)
    requires LetterBlock(x)
    ensures 4 * |x| == 64
  {
  }

  /** The 26 letters have the digest the standard says. */
  lemma DigestOfLetters()
    ensures Digest(Letters()) == [0xc3, 0xfc, 0xd3, 0xd7, 0x61, 0x92, 0xe4, 0x00,
                                  0x7d, 0xfb, 0x49, 0x6c, 0xca, 0x67, 0xe1, 0x3b]
  {
    hide Compress, Pad, Letters;
    forall j | 0 <= j < 64
      ensures |Pad(Letters())| == 64 && Pad(Letters())[j] == LetterByte(j)
    {
      PaddedByte(j);
    }
    PaddedByte(0);
    OneBlock(Compress, INITIAL, Pad(Letters()));
    LettersCompressed(Pad(Letters()));
    DigestValue(Letters());
  }

}
