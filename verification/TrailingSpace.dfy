/** The two forms of skip_trailing_space in m_string.h against the byte-by-byte loop. */
module TrailingSpace {
  import opened Bytes

  const SPACE: byte := 0x20

  predicate AllSpaces(s: seq<byte>) { forall i :: 0 <= i < |s| ==> s[i] == SPACE }

  // What the plain loop over single bytes returns.
  function NaiveEnd(s: seq<byte>): nat {
    if s != [] && s[|s| - 1] == SPACE then NaiveEnd(s[..|s| - 1]) else |s|
  }

  /** The naive result is the one place with nothing but spaces after it and no space before it. */
  lemma {:induction false} NaiveEndIs(s: seq<byte>, r: nat)
    ensures r == NaiveEnd(s) <==> r <= |s| && AllSpaces(s[r..]) && (r > 0 ==> s[r - 1] != SPACE)
  {
    var n := |s| - 1;
    if s != [] && s[n] == SPACE {
      NaiveEndIs(s[..n], r);
      if r <= n {
        assert s[r..] == s[..n][r..] + [SPACE];
        assert AllSpaces(s[r..]) ==> AllSpaces(s[..n][r..]) by {
          assert forall i :: 0 <= i < |s[..n][r..]| ==> s[..n][r..][i] == s[r..][i];
        }
      }
    } else if r < |s| {
      assert s[r..][n - r] == s[n];
    }
  }

  // Spaces at the end do not change the result.
  lemma {:induction false} SkipSpaces(s: seq<byte>, n: nat)
    requires n <= |s| && AllSpaces(s[n..])
    ensures NaiveEnd(s) == NaiveEnd(s[..n])
  {
    if n < |s| {
      var m := |s| - 1;
      assert s[n..][m - n] == s[m];
      assert s[..m][n..] == s[n..m];
      SkipSpaces(s[..m], n);
      assert s[..m][..n] == s[..n];
    } else {
      assert s[..n] == s;
    }
  }

  // ---------- words ----------

  // The value of bytes read as one big-endian word.
  function Word(b: seq<byte>): nat {
    if b == [] then 0 else 256 * Word(b[..|b| - 1]) + b[|b| - 1] as int
  }

  // SPACE_INT for words of n bytes.
  function SpaceInt(n: nat): nat { if n == 0 then 0 else 256 * SpaceInt(n - 1) + 0x20 }

  lemma SpaceIntIs()
    ensures SpaceInt(4) == 0x20202020 && SpaceInt(8) == 0x2020202020202020
  {
    assert SpaceInt(1) == 0x20 && SpaceInt(2) == 0x2020 && SpaceInt(3) == 0x202020;
    assert SpaceInt(5) == 0x2020202020 && SpaceInt(6) == 0x202020202020 && SpaceInt(7) == 0x20202020202020;
  }

  /** A word equals SPACE_INT exactly when all its bytes are spaces. */
  lemma {:induction false} WordOfSpaces(b: seq<byte>)
    ensures Word(b) == SpaceInt(|b|) <==> AllSpaces(b)
  {
    if b != [] {
      var n := |b| - 1;
      WordOfSpaces(b[..n]);
      assert AllSpaces(b) <==> AllSpaces(b[..n]) && b[n] == SPACE by {
        assert forall i :: 0 <= i < n ==> b[..n][i] == b[i];
      }
      LastDigit(Word(b[..n]), SpaceInt(n), b[n]);
    }
  }

  lemma LastDigit(high: nat, other: nat, low: byte)
    ensures 256 * high + low as int == 256 * other + 0x20 <==> high == other && low == SPACE
  {
    assert 0 <= low as int < 256;
    assert low as int == 0x20 <==> low == SPACE;
  }

  // uint8korr of byte_order_generic.h: two 32-bit sums, put together as 64 bits.
  function Uint8Korr(a: seq<byte>): nat
    requires |a| == 8
  {
    (Uint4(a[0] as int, a[1] as int, a[2] as int, a[3] as int) +
     Uint4(a[4] as int, a[5] as int, a[6] as int, a[7] as int) * 0x1_0000_0000) % 0x1_0000_0000_0000_0000
  }

  function Uint4(a: nat, b: nat, c: nat, d: nat): nat {
    (a + b * 0x100 + c * 0x1_0000 + d * 0x100_0000) % 0x1_0000_0000
  }

  lemma Uint4OfSpaces(a: nat, b: nat, c: nat, d: nat)
    requires a < 256 && b < 256 && c < 256 && d < 256
    ensures Uint4(a, b, c, d) == 0x20202020 <==> a == 0x20 && b == 0x20 && c == 0x20 && d == 0x20
    ensures Uint4(a, b, c, d) < 0x1_0000_0000
  {
    var sum := a + b * 0x100 + c * 0x1_0000 + d * 0x100_0000;
    assert sum < 0x1_0000_0000;
    if sum == 0x20202020 {
      assert d == 0x20;
      assert c == 0x20;
    }
  }

  lemma TwoHalves(low: nat, high: nat)
    requires low < 0x1_0000_0000 && high < 0x1_0000_0000
    ensures (low + high * 0x1_0000_0000) % 0x1_0000_0000_0000_0000 == 0x2020202020202020 <==>
            low == 0x20202020 && high == 0x20202020
  {
    assert low + high * 0x1_0000_0000 < 0x1_0000_0000_0000_0000;
  }

  lemma SpaceAsInt(b: byte)
    ensures b as int == 0x20 <==> b == SPACE
  {
  }

  lemma KorrOfSpaces(a: seq<byte>)
    requires |a| == 8
    ensures Uint8Korr(a) == 0x2020202020202020 <==> AllSpaces(a)
  {
    hide Uint4;
    Uint4OfSpaces(a[0] as int, a[1] as int, a[2] as int, a[3] as int);
    Uint4OfSpaces(a[4] as int, a[5] as int, a[6] as int, a[7] as int);
    TwoHalves(Uint4(a[0] as int, a[1] as int, a[2] as int, a[3] as int),
              Uint4(a[4] as int, a[5] as int, a[6] as int, a[7] as int));
    forall i | 0 <= i < 8
      ensures a[i] as int == 0x20 <==> a[i] == SPACE
    {
      SpaceAsInt(a[i]);
    }
  }

  // ---------- alignment ----------

  // SIZEOF_INT is 4 or 8.
  predicate Aligned(address: nat, size: nat) { if size == 4 then address % 4 == 0 else address % 8 == 0 }

  // The last aligned address at or below an address, and the first at or above it.
  function Down(address: nat, size: nat): nat { if size == 4 then address / 4 * 4 else address / 8 * 8 }

  function Up(address: nat, size: nat): nat { if size == 4 then (address + 3) / 4 * 4 else (address + 7) / 8 * 8 }

  lemma Alignment(address: nat, size: nat)
    requires size == 4 || size == 8
    ensures Down(address, size) <= address < Down(address, size) + size && Aligned(Down(address, size), size)
    ensures Up(address, size) - size < address <= Up(address, size) && Aligned(Up(address, size), size)
  {
    if size == 4 {
      Fours(address);
      Fours(address + 3);
    } else {
      Eights(address);
      Eights(address + 7);
    }
  }

  lemma Fours(a: nat)
    ensures a / 4 * 4 <= a < a / 4 * 4 + 4 && a / 4 * 4 % 4 == 0
  {
  }

  lemma Eights(a: nat)
    ensures a / 8 * 8 <= a < a / 8 * 8 + 8 && a / 8 * 8 % 8 == 0
  {
  }

  // Between two aligned addresses there are whole words.
  lemma WordBelow(start: nat, end: nat, size: nat)
    requires (size == 4 || size == 8) && start < end && Aligned(start, size) && Aligned(end, size)
    ensures start + size <= end && Aligned(end - size, size)
  {
    if size == 4 {
      WordOfFour(start, end);
    } else {
      WordOfEight(start, end);
    }
  }

  lemma WordOfFour(start: nat, end: nat)
    requires start < end && start % 4 == 0 && end % 4 == 0
    ensures start + 4 <= end && (end - 4) % 4 == 0
  {
  }

  lemma WordOfEight(start: nat, end: nat)
    requires start < end && start % 8 == 0 && end % 8 == 0
    ensures start + 8 <= end && (end - 8) % 8 == 0
  {
  }

  // ---------- the two forms ----------

  /** Eight bytes at a time, ignoring alignment. */
  method SkipByEights(s: seq<byte>) returns (end: nat)
    ensures end == NaiveEnd(s)
  {
    end := |s|;
    assert s[..end] == s;
    while end >= 8
      invariant end <= |s| && NaiveEnd(s) == NaiveEnd(s[..end])
    {
      KorrOfSpaces(s[end - 8..end]);
      if Uint8Korr(s[end - 8..end]) != 0x2020202020202020 {
        break;
      }
      SkipSpacesTo(s, end, end - 8);
      end := end - 8;
    }
    end := SkipByOnes(s, 0, end);
  }

  lemma SkipSpacesTo(s: seq<byte>, end: nat, n: nat)
    requires n <= end <= |s| && AllSpaces(s[n..end])
    ensures NaiveEnd(s[..end]) == NaiveEnd(s[..n])
  {
    assert s[..end][n..] == s[n..end] && s[..end][..n] == s[..n];
    SkipSpaces(s[..end], n);
  }

  // The loop over single bytes, down to `stop` at the earliest.
  method SkipByOnes(s: seq<byte>, stop: nat, start: nat) returns (end: nat)
    requires stop <= start <= |s|
    ensures stop <= end <= start && NaiveEnd(s[..end]) == NaiveEnd(s[..start])
    ensures end == stop || s[end - 1] != SPACE
    ensures stop == 0 ==> end == NaiveEnd(s[..start])
  {
    end := start;
    while end > stop && s[end - 1] == SPACE
      invariant stop <= end <= start && NaiveEnd(s[..end]) == NaiveEnd(s[..start])
    {
      SkipSpacesTo(s, end, end - 1);
      end := end - 1;
    }
    NaiveEndIs(s[..end], end);
  }

  // The aligned word that ends at `end`.
  function WordHere(s: seq<byte>, ptr: nat, start: nat, end: nat, size: nat): nat
    requires (size == 4 || size == 8) && start < end <= |s|
    requires Aligned(ptr + start, size) && Aligned(ptr + end, size)
  {
    WordBelow(ptr + start, ptr + end, size);
    Word(s[end - size..end])
  }

  method SkipWords(s: seq<byte>, ptr: nat, size: nat, startWords: nat, endWords: nat) returns (end: nat)
    requires (size == 4 || size == 8) && startWords < endWords <= |s|
    requires Aligned(ptr + startWords, size) && Aligned(ptr + endWords, size)
    ensures startWords <= end <= endWords && NaiveEnd(s[..end]) == NaiveEnd(s[..endWords])
  {
    hide Aligned, Word, SpaceInt;
    end := endWords;
    while end > startWords && WordHere(s, ptr, startWords, end, size) == SpaceInt(size)
      invariant startWords <= end <= endWords && Aligned(ptr + end, size)
      invariant NaiveEnd(s[..end]) == NaiveEnd(s[..endWords])
    {
      WordBelow(ptr + startWords, ptr + end, size);
      WordOfSpaces(s[end - size..end]);
      SkipSpacesTo(s, end, end - size);
      end := end - size;
    }
  }

  /** Aligned words of `size` bytes, for a buffer whose first byte is at address `ptr`; offsets into the buffer
      stand for the pointers, and every read stays inside it. */
  method SkipByWords(s: seq<byte>, ptr: nat, size: nat) returns (end: nat)
    requires size == 4 || size == 8
    ensures end == NaiveEnd(s)
  {
    hide Down, Up, Aligned, NaiveEnd;
    end := |s|;
    assert s[..end] == s;
    if |s| > 20 {
      Alignment(ptr, size);
      Alignment(ptr + |s|, size);
      var endWords, startWords := Down(ptr + |s|, size) - ptr, Up(ptr, size) - ptr;
      end := SkipByOnes(s, endWords, end);
      if s[end - 1] == SPACE && startWords < endWords {
        end := SkipWords(s, ptr, size, startWords, end);
      }
    }
    end := SkipByOnes(s, 0, end);
  }
}
