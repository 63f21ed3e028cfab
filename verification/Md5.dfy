/** The streaming MD5 context of md5.cpp, proved to compute the digest of RFC 1321. */
module Md5 {
  import opened Basics
  import opened Bytes
  import opened Md5Rfc
  import opened Md5Transform

  // ---------- the block fold ----------

  type Compression = (Regs<bv32>, Block) -> Regs<bv32>

  // The buffering below treats the compression function as a black box. LookInside is the only
  // key that opens it, so that no proof about buffering unfolds the 64 steps.
  ghost predicate LookInside(r: Regs<bv32>, block: Block) { true }

  ghost predicate IsCompress(f: Compression) {
    forall r, block {:trigger LookInside(r, block)} :: f(r, block) == Compress(r, block)
  }

  lemma TheCompression() returns (f: Compression)
    ensures IsCompress(f)
  {
    f := Compress;
  }

  lemma {:induction false} AbsorbIsCompress(f: Compression, r: Regs<bv32>, s: seq<byte>)
    requires IsCompress(f) && |s| % 64 == 0
    ensures Absorb(f, r, s) == Absorb(Compress, r, s)
    decreases |s|
  {
    if s != [] {
      assert LookInside(r, s[..64]);
      AbsorbIsCompress(f, f(r, s[..64]), s[64..]);
    }
  }

  function Whole(s: seq<byte>): (w: seq<byte>)
    ensures |w| % 64 == 0
  {
    s[..|s| - |s| % 64]
  }

  function Tail(s: seq<byte>): (t: seq<byte>)
    ensures |t| == |s| % 64 && Whole(s) + t == s
  {
    var start := |s| - |s| % 64;
    seq(|s| % 64, i requires 0 <= i < |s| % 64 => s[start + i])
  }

  lemma WholeUnique(s: seq<byte>, whole: seq<byte>, tail: seq<byte>)
    requires s == whole + tail && |whole| % 64 == 0 && |tail| < 64
    ensures Whole(s) == whole && Tail(s) == tail
  {
    assert |s| % 64 == |tail|;
  }

  // ---------- the two-word bit counter ----------

  lemma SplitSum(a: nat, b: nat)
    ensures var low := Wrap(Wrap(a) + Wrap(b));
            low == Wrap(a + b) &&
            (a + b) / 0x1_0000_0000 == a / 0x1_0000_0000 + b / 0x1_0000_0000 + (if low < Wrap(b) then 1 else 0)
  {
  }

  lemma WrapInner(a: nat, b: nat)
    ensures Wrap(Wrap(a) + b) == Wrap(a + b)
  {
  }

  /** The carry test and the high bits of the length make the two words one 64-bit sum. */
  lemma CounterAdds(n: nat, len: word)
    ensures var shifted := Wrap(8 * len);
            var low := Wrap(LowWord(n) + shifted);
            var carried := if low < shifted then Wrap(HighWord(n) + 1) else HighWord(n);
            low == LowWord(n + len) && Wrap(carried + len / 0x2000_0000) == HighWord(n + len)
  {
    var high := 8 * n / 0x1_0000_0000;
    SplitSum(8 * n, 8 * len);
    assert 8 * len / 0x1_0000_0000 == len / 0x2000_0000;
    assert 8 * (n + len) == 8 * n + 8 * len;
    WrapInner(high, len / 0x2000_0000);
    WrapInner(high, 1);
    WrapInner(high + 1, len / 0x2000_0000);
  }

  lemma IndexFromCounter(n: nat)
    ensures LowWord(n) / 8 % 64 == n % 64
  {
    assert LowWord(n) == 8 * (n % 0x2000_0000);
  }

  // ---------- the guard of the block loop ----------

  // The loop starts at `64 - bufferIndex` and `index` is where it stands after k blocks, within the input as the guard
  // of the round before saw to it.
  ghost predicate LoopReaches(bufferIndex: nat, len: nat, k: nat, index: nat) {
    index == 64 - bufferIndex + 64 * k && index <= len
  }

  // What a caller can test before the call: nothing buffered, or no 32-bit overflow.
  predicate GuardSafe(bufferIndex: nat, len: nat) {
    bufferIndex == 0 || bufferIndex + len < 0x1_0000_0000
  }

  /** `input_index + 63` wraps at an index the loop reaches exactly when GuardSafe fails. */
  lemma GuardWraps(bufferIndex: nat, len: word)
    requires bufferIndex < 64 && len >= 64 - bufferIndex
    ensures (exists k: nat, index: nat :: LoopReaches(bufferIndex, len, k, index) && index + 63 >= 0x1_0000_0000)
       <==> !GuardSafe(bufferIndex, len)
  {
    if !GuardSafe(bufferIndex, len) {
      var k := 0x3ff_ffff;
      assert LoopReaches(bufferIndex, len, k, 64 - bufferIndex + 64 * k);
    }
  }

  lemma GuardMeansRoom(start: nat, len: nat, index: nat)
    requires 0 < start <= 64 && start <= index <= len < 0x1_0000_0000 && (index - start) % 64 == 0
    requires GuardSafe(64 - start, len)
    ensures Wrap(index + 63) < len <==> index + 64 <= len
  {
  }

  // What has been taken of the input, with what was fed before.
  lemma Regroup(fed: seq<byte>, input: seq<byte>, space: nat, at: nat)
    requires space <= at <= |input|
    ensures fed + input[..space] + input[space..at] + [] == fed + input[..at]
  {
  }

  lemma NothingTaken(fed: seq<byte>, input: seq<byte>)
    ensures Whole(fed) + Tail(fed) == fed + input[..0]
  {
  }

  lemma AppendRest(fed: seq<byte>, input: seq<byte>, at: nat, len: nat, whole: seq<byte>, kept: seq<byte>)
    requires at <= len <= |input| && whole + kept == fed + input[..at]
    ensures fed + input[..len] == whole + (kept + input[at..len])
  {
    assert fed + input[..len] == fed + input[..at] + input[at..len];
  }

  const PADDING: seq<byte> := [0x80] + Zeros(63)

  class MD5 {
    const state: array<bv32>
    const count: array<word>
    const buffer: array<byte>
    const digest: array<byte>
    var finalized: bool
    ghost var fed: seq<byte>  // every byte passed to Update so far
    ghost const compress: Compression

    ghost function Repr(): set<object> { {this, state, count, buffer, digest} }

    function Registers(): Regs<bv32>
      requires state.Length == 4
      reads state
    {
      Regs(state[0], state[1], state[2], state[3])
    }

    ghost predicate Shape() {
      state.Length == 4 && count.Length == 2 && buffer.Length == 64 && digest.Length == 16 && buffer != digest &&
      IsCompress(compress)
    }

    // The running context is a function of the bytes fed so far, however they were cut up.
    ghost predicate Tracks(message: seq<byte>)
      requires Shape()
      reads state, count, buffer
    {
      && Registers() == Absorb(compress, INITIAL, Whole(message))
      && buffer[..|message| % 64] == Tail(message)
      && count[0] == LowWord(|message|) && count[1] == HighWord(|message|)
    }

    ghost predicate Valid()
      reads this, state, count, buffer
    {
      Shape() && (!finalized ==> Tracks(fed))
    }

    constructor ()
      ensures Valid() && !finalized && fed == []
      ensures fresh(Repr())
    {
      state := new bv32[4];
      count := new word[2];
      buffer := new byte[64];
      digest := new byte[16];
      finalized := false;
      fed := [];
      ghost var f := TheCompression();
      compress := f;
      new;
      count[0] := 0;
      count[1] := 0;
      state[0] := 0x67452301;
      state[1] := 0xefcdab89;
      state[2] := 0x98badcfe;
      state[3] := 0x10325476;
      assert Whole(fed) == [] && Tail(fed) == [];
    }

    static method Memcpy(output: array<byte>, at: nat, input: seq<byte>, from: nat, len: nat)
      requires at + len <= output.Length && from + len <= |input|
      modifies output
      ensures output[..] == old(output[..at]) + input[from..from + len] + old(output[at + len..])
    {
      var i := 0;
      while i < len
        invariant i <= len
        invariant output[..at] == old(output[..at])
        invariant output[at..at + i] == input[from..from + i]
        invariant output[at + len..] == old(output[at + len..])
      {
        output[at + i] := input[from + i];
        i := i + 1;
      }
    }

    static method Memset(output: array<byte>, value: byte, len: nat)
      requires len <= output.Length
      modifies output
      ensures output[..len] == seq(len, _ => value) && output[len..] == old(output[len..])
    {
      var i := 0;
      while i < len
        invariant i <= len
        invariant forall k :: 0 <= k < i ==> output[k] == value
        invariant output[len..] == old(output[len..])
      {
        output[i] := value;
        i := i + 1;
      }
    }

    static method Encode(output: array<byte>, input: seq<bv32>, len: nat)
      requires len == 4 * |input| == output.Length
      modifies output
      ensures output[..] == PackWords(input)
    {
      hide PackWords;
      var i, j := 0, 0;
      NothingPacked();
      while j < len
        invariant j == 4 * i && i <= |input|
        invariant output[..j] == PackWords(input[..i])
      {
        PackAppend(input[..i], input[i]);
        assert input[..i] + [input[i]] == input[..i + 1];
        output[j] := (input[i] & 0xff) as bv8;
        output[j + 1] := ((input[i] >> 8) & 0xff) as bv8;
        output[j + 2] := ((input[i] >> 16) & 0xff) as bv8;
        output[j + 3] := ((input[i] >> 24) & 0xff) as bv8;
        assert output[..j + 4] == output[..j] + WordBytes(input[i]);
        i, j := i + 1, j + 4;
      }
      assert input[..i] == input && output[..j] == output[..];
    }

    static method Decode(output: array<bv32>, input: seq<byte>, len: nat)
      requires len == 4 * output.Length == |input|
      modifies output
      ensures output[..] == UnpackWords(input)
    {
      var i, j := 0, 0;
      while j < len
        invariant j == 4 * i && i <= output.Length
        invariant forall k :: 0 <= k < i ==> output[k] == UnpackWords(input)[k]
      {
        UnpackAt(input, i);
        output[i] := BytesWord(input[j], input[j + 1], input[j + 2], input[j + 3]);
        i, j := i + 1, j + 4;
      }
    }

    method Transform(block: seq<byte>)
      requires Shape() && |block| == 64
      requires !finalized
      modifies state
      ensures Registers() == compress(old(Registers()), block)
    {
      var x := new bv32[16];
      Decode(x, block, 64);
      var start := Registers();
      var r := MachineRounds(start, x[..]);
      var sum := AddRegs(start, r);
      state[0], state[1], state[2], state[3] := sum.a, sum.b, sum.c, sum.d;
      assert LookInside(start, block);
    }

    // Adds the bits of inputLength bytes to the two-word counter.
    method CountBits(inputLength: nat, ghost n: nat)
      requires Shape() && inputLength < 0x1_0000_0000
      requires count[0] == LowWord(n) && count[1] == HighWord(n)
      modifies count
      ensures count[0] == LowWord(n + inputLength) && count[1] == HighWord(n + inputLength)
    {
      CounterAdds(n, inputLength);
      var shifted: nat := Wrap(8 * inputLength);
      count[0] := Wrap(count[0] + shifted);
      if count[0] < shifted {
        var high: nat := count[1];
        count[1] := Wrap(high + 1);
      }
      count[1] := Wrap(count[1] + inputLength / 0x2000_0000);
    }

    // Fills the rest of the buffer and transforms it.
    method FillAndTransform(input: seq<byte>, bufferIndex: nat, bufferSpace: nat) returns (ghost absorbed: seq<byte>)
      requires Shape() && !finalized
      requires bufferIndex == |fed| % 64 && bufferSpace == 64 - bufferIndex <= |input|
      requires Registers() == Absorb(compress, INITIAL, Whole(fed)) && buffer[..bufferIndex] == Tail(fed)
      modifies state, buffer
      ensures absorbed == fed + input[..bufferSpace] && |absorbed| % 64 == 0
      ensures Registers() == Absorb(compress, INITIAL, absorbed)
    {
      Memcpy(buffer, bufferIndex, input, 0, bufferSpace);
      var block := buffer[..];
      assert block == Tail(fed) + input[..bufferSpace];
      AbsorbAppend(compress, INITIAL, Whole(fed), block);
      absorbed := Whole(fed) + block;
      Transform(block);
    }

    // Transforms each 64-byte piece of the input from `start` on, bypassing the buffer.
    method TransformBlocks(input: seq<byte>, start: nat, inputLength: nat, ghost absorbed: seq<byte>)
      returns (inputIndex: nat)
      requires Shape() && !finalized && |absorbed| % 64 == 0
      requires 0 < start <= 64 && start <= inputLength <= |input|
      requires GuardSafe(64 - start, inputLength) && inputLength < 0x1_0000_0000
      requires Registers() == Absorb(compress, INITIAL, absorbed)
      modifies state
      ensures start <= inputIndex <= inputLength < inputIndex + 64
      ensures |absorbed + input[start..inputIndex]| % 64 == 0
      ensures Registers() == Absorb(compress, INITIAL, absorbed + input[start..inputIndex])
    {
      hide Absorb, GuardSafe, IsCompress;
      inputIndex := start;
      assert absorbed + input[start..inputIndex] == absorbed;
      while Wrap(inputIndex + 63) < inputLength
        invariant start <= inputIndex <= inputLength && (inputIndex - start) % 64 == 0
        invariant |absorbed + input[start..inputIndex]| % 64 == 0
        invariant Registers() == Absorb(compress, INITIAL, absorbed + input[start..inputIndex])
        decreases inputLength - inputIndex
      {
        GuardMeansRoom(start, inputLength, inputIndex);
        var block := input[inputIndex..inputIndex + 64];
        AbsorbAppend(compress, INITIAL, absorbed + input[start..inputIndex], block);
        assert absorbed + input[start..inputIndex] + block == absorbed + input[start..inputIndex + 64];
        Transform(block);
        inputIndex := inputIndex + 64;
      }
      GuardMeansRoom(start, inputLength, inputIndex);
    }

    // Buffers what is left of the input.
    method BufferRest(input: seq<byte>, bufferIndex: nat, inputIndex: nat, inputLength: nat,
                      ghost whole: seq<byte>, ghost kept: seq<byte>)
      requires Shape() && !finalized && inputIndex <= inputLength <= |input|
      requires whole + kept == fed + input[..inputIndex] && |whole| % 64 == 0
      requires bufferIndex == |kept| && bufferIndex + inputLength - inputIndex < 64 && buffer[..bufferIndex] == kept
      requires Registers() == Absorb(compress, INITIAL, whole)
      requires count[0] == LowWord(|fed| + inputLength) && count[1] == HighWord(|fed| + inputLength)
      modifies this, buffer
      ensures Valid() && !finalized && fed == old(fed) + input[..inputLength]
    {
      Memcpy(buffer, bufferIndex, input, inputIndex, inputLength - inputIndex);
      AppendRest(fed, input, inputIndex, inputLength, whole, kept);
      fed := fed + input[..inputLength];
      WholeUnique(fed, whole, kept + input[inputIndex..inputLength]);
    }

    method Update(input: seq<byte>, inputLength: nat)
      requires Valid() && inputLength <= |input| && inputLength < 0x1_0000_0000
      requires !finalized ==> GuardSafe(|fed| % 64, inputLength)
      modifies this, state, count, buffer
      ensures Valid() && finalized == old(finalized)
      ensures fed == if finalized then old(fed) else old(fed) + input[..inputLength]
    {
      if finalized {
        return;
      }
      hide Absorb, LowWord, HighWord, Whole, GuardSafe, IsCompress;
      IndexFromCounter(|fed|);
      var bufferIndex := count[0] / 8 % 64;
      CountBits(inputLength, |fed|);
      var bufferSpace := 64 - bufferIndex;
      var inputIndex := 0;
      ghost var whole, kept := Whole(fed), Tail(fed);
      if inputLength >= bufferSpace {
        whole := FillAndTransform(input, bufferIndex, bufferSpace);
        inputIndex := TransformBlocks(input, bufferSpace, inputLength, whole);
        Regroup(fed, input, bufferSpace, inputIndex);
        whole, kept := whole + input[bufferSpace..inputIndex], [];
        bufferIndex := 0;
      } else {
        NothingTaken(fed, input);
      }
      BufferRest(input, bufferIndex, inputIndex, inputLength, whole, kept);
    }

    // The bit count as it stands, low-order byte first.
    method SavedCount() returns (bits: seq<byte>)
      requires Shape() && Tracks(fed)
      ensures bits == LengthField(|fed|)
    {
      var saved := new byte[8];
      Encode(saved, [count[0] as bv32, count[1] as bv32], 8);
      bits := saved[..];
    }

    // Pads out to 56 modulo 64 and appends the count saved before padding.
    method AppendPadding()
      requires Valid() && !finalized
      modifies this, state, count, buffer
      ensures Valid() && !finalized && fed == Pad(old(fed))
    {
      ghost var message := fed;
      IndexFromCounter(|fed|);
      var bits := SavedCount();
      var index := count[0] / 8 % 64;
      var padLen := if index < 56 then 56 - index else 120 - index;
      PaddingAppended(message, padLen, bits);
      Update(PADDING, padLen);
      Update(bits, 8);
      assert bits[..8] == bits;
    }

    method Finalize()
      requires Valid()
      modifies this, state, count, buffer, digest
      ensures Valid() && finalized && fed == old(fed)
      ensures digest[..] == if old(finalized) then old(digest[..]) else Digest(fed)
    {
      if finalized {
        return;
      }
      ghost var message := fed;
      AppendPadding();
      assert Whole(fed) == fed;
      DigestOfRegisters(compress, message, Registers());
      assert state[..] == [state[0], state[1], state[2], state[3]];
      Encode(digest, state[..], 16);
      Memset(buffer, 0, 64);
      finalized := true;
      fed := message;
    }

    // The empty sequence stands for the empty string handed out before finalization.
    method RawDigest() returns (s: seq<byte>)
      requires Shape()
      ensures s == if finalized then digest[..] else []
    {
      if !finalized {
        return [];
      }
      var copy := new byte[16];
      Memcpy(copy, 0, digest[..], 0, 16);
      s := copy[..];
    }

    method HexDigest() returns (s: seq<byte>)
      requires Shape()
      ensures s == if finalized then Hex(digest[..]) else []
    {
      if !finalized {
        return [];
      }
      s := [];
      for i := 0 to 16
        invariant s == Hex(digest[..i])
      {
        HexAppend(digest[..i], digest[i]);
        assert digest[..i + 1] == digest[..i] + [digest[i]];
        s := s + [HexDigit(HighHalf(digest[i])), HexDigit(LowHalf(digest[i]))];
      }
      assert digest[..16] == digest[..];
    }
  }

  lemma NothingPacked()
    ensures PackWords([]) == []
  {
  }

  // ---------- padding and digest ----------

  lemma PaddingAppended(m: seq<byte>, padLen: nat, field: seq<byte>)
    requires padLen == if |m| % 64 < 56 then 56 - |m| % 64 else 120 - |m| % 64
    requires field == LengthField(|m|)
    ensures m + PADDING[..padLen] + field == Pad(m)
  {
    var k := PadZeros(|m|);
    assert PADDING[..padLen] == [0x80] + Zeros(k);
    assert m + PADDING[..padLen] == m + [0x80] + Zeros(k);
  }

  lemma DigestOfRegisters(f: Compression, m: seq<byte>, r: Regs<bv32>)
    requires IsCompress(f) && r == Absorb(f, INITIAL, Pad(m))
    ensures PackWords([r.a, r.b, r.c, r.d]) == Digest(m)
  {
    AbsorbIsCompress(f, INITIAL, Pad(m));
    DigestValue(m);
  }

  // Drops the zero bytes at the end.
  function StripZeros(s: seq<byte>): seq<byte> {
    if s != [] && s[|s| - 1] == 0 then StripZeros(s[..|s| - 1]) else s
  }

  // Takes padding off again: the length field, the zero bytes, the 0x80.
  function Unpad(p: seq<byte>): seq<byte> {
    var q := StripZeros(if |p| >= 8 then p[..|p| - 8] else []);
    if q == [] then [] else q[..|q| - 1]
  }

  lemma {:induction false} StripAppendedZeros(s: seq<byte>, k: nat)
    requires s != [] && s[|s| - 1] != 0
    ensures StripZeros(s + Zeros(k)) == s
  {
    if k == 0 {
      assert s + Zeros(0) == s;
    } else {
      StripAppendedZeros(s, k - 1);
      var t := s + Zeros(k);
      assert t[..|t| - 1] == s + Zeros(k - 1);
    }
  }

  /** Padding loses nothing: every message comes back from its padded form. */
  lemma UnpadPad(m: seq<byte>)
    ensures Unpad(Pad(m)) == m
  {
    var k := PadZeros(|m|);
    var p := Pad(m);
    assert p[..|p| - 8] == (m + [0x80]) + Zeros(k);
    StripAppendedZeros(m + [0x80], k);
    assert (m + [0x80])[..|m|] == m;
  }

  // ---------- hexadecimal form ----------

  function HexDigit(v: byte): byte { if v < 10 then 48 + v else 87 + v }

  function HighHalf(b: byte): byte { b >> 4 }
  function LowHalf(b: byte): byte { b & 0xf }

  // Two digits a byte, high half first.
  function Hex(s: seq<byte>): (h: seq<byte>)
    ensures |h| == 2 * |s|
  {
    seq(2 * |s|, i requires 0 <= i < 2 * |s| => HexDigit(if i % 2 == 0 then HighHalf(s[i / 2]) else LowHalf(s[i / 2])))
  }

  function HexValue(d: byte): byte { if d < 58 then d - 48 else d - 87 }

  function Unhex(h: seq<byte>): seq<byte> {
    if |h| < 2 then [] else [(HexValue(h[0]) << 4) | HexValue(h[1])] + Unhex(h[2..])
  }

  predicate LowerHexDigit(d: byte) { 48 <= d <= 57 || 97 <= d <= 102 }

  lemma HexAppend(s: seq<byte>, b: byte)
    ensures Hex(s + [b]) == Hex(s) + [HexDigit(HighHalf(b)), HexDigit(LowHalf(b))]
  {
  }

  lemma HexHalf(v: byte)
    requires v < 16
    ensures LowerHexDigit(HexDigit(v)) && HexValue(HexDigit(v)) == v
  {
  }

  lemma JoinHalves(b: byte)
    ensures (HighHalf(b) << 4) | LowHalf(b) == b && HighHalf(b) < 16 && LowHalf(b) < 16
  {
  }

  /** The hexadecimal form uses lower-case digits only and determines the bytes. */
  lemma {:induction false} UnhexHex(s: seq<byte>)
    ensures Unhex(Hex(s)) == s
    ensures forall i :: 0 <= i < |Hex(s)| ==> LowerHexDigit(Hex(s)[i])
  {
    if s != [] {
      JoinHalves(s[0]);
      HexHalf(HighHalf(s[0]));
      HexHalf(LowHalf(s[0]));
      UnhexHex(s[1..]);
      assert Hex(s)[2..] == Hex(s[1..]);
    }
  }

  const HEX_DIGITS: string := "0123456789abcdef"

  lemma DigitSpelled(v: byte)
    requires v < 16
    ensures HexDigit(v) as int == HEX_DIGITS[v as int] as int
  {
  }

  lemma HalvesAreDigits(b: byte)
    ensures HighHalf(b) < 16 && LowHalf(b) < 16
    ensures HighHalf(b) as int == b as int / 16 && LowHalf(b) as int == b as int % 16
  {
  }

  /** Byte i is written as its two hexadecimal digits, high one first. */
  lemma HexSpells(s: seq<byte>, i: nat)
    requires i < |s|
    ensures Hex(s)[2 * i] as int == HEX_DIGITS[s[i] as int / 16] as int
    ensures Hex(s)[2 * i + 1] as int == HEX_DIGITS[s[i] as int % 16] as int
  {
    hide HexDigit, HighHalf, LowHalf;
    HalvesAreDigits(s[i]);
    DigitSpelled(HighHalf(s[i]));
    DigitSpelled(LowHalf(s[i]));
    assert 2 * i / 2 == i && (2 * i + 1) / 2 == i;
  }

  // ---------- whole runs ----------

  // No update of the row makes the guard of the block loop wrap: after the chunks before it, each is still safe.
  ghost predicate Feedable(chunks: seq<seq<byte>>) {
    forall i :: 0 <= i < |chunks| ==>
      |chunks[i]| < 0x1_0000_0000 && GuardSafe(|Flatten(chunks[..i])| % 64, |chunks[i]|)
  }

  /** However a message is cut into updates the original can take, the digest is that of the message. */
  method HashChunks(chunks: seq<seq<byte>>) returns (digest: seq<byte>)
    requires Feedable(chunks)
    ensures digest == Digest(Flatten(chunks))
  {
    var context := new MD5();
    for i := 0 to |chunks|
      invariant fresh(context.Repr())
      invariant context.Valid() && !context.finalized && context.fed == Flatten(chunks[..i])
    {
      assert chunks[..i + 1][..i] == chunks[..i];
      context.Update(chunks[i], |chunks[i]|);
      assert chunks[i][..|chunks[i]|] == chunks[i];
    }
    assert chunks[..|chunks|] == chunks;
    context.Finalize();
    digest := context.RawDigest();
  }

  /** Two contexts fed the same bytes agree in every field, whatever their histories. */
  lemma SameBytesSameContext(p: MD5, q: MD5)
    requires p.Valid() && q.Valid() && !p.finalized && !q.finalized && p.fed == q.fed
    ensures p.Registers() == q.Registers() && p.count[..] == q.count[..]
    ensures p.buffer[..|p.fed| % 64] == q.buffer[..|q.fed| % 64]
  {
    hide IsCompress, Absorb, Whole, Tail, LowWord, HighWord;
    AbsorbIsCompress(p.compress, INITIAL, Whole(p.fed));
    AbsorbIsCompress(q.compress, INITIAL, Whole(q.fed));
  }
}
