/** Base64 as section 4 of RFC 4648 defines it, and the encoder and decoder of base64.cpp against it. */
module Base64 {
  import opened Bytes

  const PAD: byte := 61  // '='

  // ---------- the alphabet ----------

  predicate IsBase64(c: byte) {
    65 <= c <= 90 || 97 <= c <= 122 || 48 <= c <= 57 || c == 43 || c == 47
  }

  // "ABC...Zabc...z0123456789+/"[v]
  function Letter(v: byte): (c: byte)
    requires v < 64
    ensures IsBase64(c)
  {
    if v < 26 then 65 + v
    else if v < 52 then 71 + v
    else if v < 62 then v - 4
    else if v == 62 then 43
    else 47
  }

  // The position of c in the alphabet; npos, cut down to a byte, when c is not in it.
  function Find(c: byte): byte {
    if 65 <= c <= 90 then c - 65
    else if 97 <= c <= 122 then c - 71
    else if 48 <= c <= 57 then c + 4
    else if c == 43 then 62
    else if c == 47 then 63
    else 0xff
  }

  lemma FindLetter(v: byte)
    requires v < 64
    ensures Find(Letter(v)) == v
  {
  }

  lemma LetterFind(c: byte)
    ensures if IsBase64(c) then Find(c) < 64 && Letter(Find(c)) == c else Find(c) == 0xff
  {
  }

  // ---------- 24-bit groups ----------

  function Group(a: byte, b: byte, c: byte): bv24 {
    ((a as bv24) << 16) | ((b as bv24) << 8) | (c as bv24)
  }

  function GroupBytes(g: bv24): (byte, byte, byte) {
    (((g >> 16) & 0xff) as bv8, ((g >> 8) & 0xff) as bv8, (g & 0xff) as bv8)
  }

  datatype Quad = Quad(q0: byte, q1: byte, q2: byte, q3: byte)

  // The four 6-bit pieces of a group, most significant first.
  function Sextets(g: bv24): (q: Quad)
    ensures q.q0 < 64 && q.q1 < 64 && q.q2 < 64 && q.q3 < 64
  {
    Quad(((g >> 18) & 0x3f) as bv8, ((g >> 12) & 0x3f) as bv8, ((g >> 6) & 0x3f) as bv8, (g & 0x3f) as bv8)
  }

  function Join(q: Quad): bv24 {
    ((q.q0 as bv24) << 18) | ((q.q1 as bv24) << 12) | ((q.q2 as bv24) << 6) | (q.q3 as bv24)
  }

  lemma JoinSextets(g: bv24)
    ensures Join(Sextets(g)) == g
  {
  }

  lemma GroupOfBytes(a: byte, b: byte, c: byte)
    ensures GroupBytes(Group(a, b, c)) == (a, b, c)
  {
  }

  function Lane(q: Quad, i: nat): byte {
    match i
    case 0 => q.q0
    case 1 => q.q1
    case 2 => q.q2
    case _ => q.q3
  }

  function EncodeGroup(a: byte, b: byte, c: byte): (s: seq<byte>)
    ensures |s| == 4
  {
    seq(4, i requires 0 <= i < 4 => Letter(Lane(Sextets(Group(a, b, c)), i)))
  }

  // Whole groups of three bytes, then one or two bytes left over, zero-filled and padded.
  function Encode(x: seq<byte>): seq<byte> {
    if x == [] then []
    else if |x| == 1 then EncodeGroup(x[0], 0, 0)[..2] + [PAD, PAD]
    else if |x| == 2 then EncodeGroup(x[0], x[1], 0)[..3] + [PAD]
    else EncodeGroup(x[0], x[1], x[2]) + Encode(x[3..])
  }

  // How many characters at the front belong to the alphabet.
  function AlphabetPrefix(s: seq<byte>): (k: nat)
    ensures k <= |s| && (forall i :: 0 <= i < k ==> IsBase64(s[i])) && (k < |s| ==> !IsBase64(s[k]))
  {
    if s == [] || !IsBase64(s[0]) then 0 else 1 + AlphabetPrefix(s[1..])
  }

  function DecodeQuad(q: Quad): (s: seq<byte>)
    ensures |s| == 3
  {
    var (a, b, c) := GroupBytes(Join(q));
    [a, b, c]
  }

  // Whole groups of four letters, then up to three left over; the lanes that are missing are zero.
  function DecodeLetters(s: seq<byte>): seq<byte> {
    if |s| < 2 then []
    else if |s| == 2 then DecodeQuad(Quad(Find(s[0]), Find(s[1]), 0, 0))[..1]
    else if |s| == 3 then DecodeQuad(Quad(Find(s[0]), Find(s[1]), Find(s[2]), 0))[..2]
    else DecodeQuad(Quad(Find(s[0]), Find(s[1]), Find(s[2]), Find(s[3]))) + DecodeLetters(s[4..])
  }

  // Decoding stops at the first character outside the alphabet.
  function Decode(s: seq<byte>): seq<byte> {
    DecodeLetters(s[..AlphabetPrefix(s)])
  }

  lemma {:induction false} EncodedLength(x: seq<byte>)
    ensures |Encode(x)| == 4 * ((|x| + 2) / 3)
  {
    if |x| > 2 {
      EncodedLength(x[3..]);
    }
  }

  lemma {:induction false} LettersLength(s: seq<byte>)
    ensures |DecodeLetters(s)| == 3 * |s| / 4
  {
    if |s| > 3 {
      LettersLength(s[4..]);
    }
  }

  /** Whatever follows the k letters at the front, exactly floor(3k/4) bytes come out. */
  lemma DecodedLength(s: seq<byte>)
    ensures |Decode(s)| == 3 * AlphabetPrefix(s) / 4
  {
    LettersLength(s[..AlphabetPrefix(s)]);
  }

  // ---------- decoding undoes encoding ----------

  lemma {:induction false} PrefixOf(letters: seq<byte>, rest: seq<byte>)
    requires forall i :: 0 <= i < |letters| ==> IsBase64(letters[i])
    requires rest == [] || !IsBase64(rest[0])
    ensures AlphabetPrefix(letters + rest) == |letters|
  {
    if letters == [] {
      assert letters + rest == rest;
    } else {
      assert (letters + rest)[1..] == letters[1..] + rest;
      PrefixOf(letters[1..], rest);
    }
  }

  lemma DecodeEncodeGroup(a: byte, b: byte, c: byte)
    ensures var s := EncodeGroup(a, b, c);
            DecodeQuad(Quad(Find(s[0]), Find(s[1]), Find(s[2]), Find(s[3]))) == [a, b, c]
  {
    var q := Sextets(Group(a, b, c));
    FindLetter(q.q0);
    FindLetter(q.q1);
    FindLetter(q.q2);
    FindLetter(q.q3);
    JoinSextets(Group(a, b, c));
    GroupOfBytes(a, b, c);
  }

  // With one byte in the group, the last two lanes are made of zero bits only.
  lemma OneByteLanes(a: byte)
    ensures var q := Sextets(Group(a, 0, 0));
            q.q2 == 0 && q.q3 == 0 && DecodeQuad(Quad(q.q0, q.q1, 0, 0)) == [a, 0, 0]
  {
    JoinSextets(Group(a, 0, 0));
    GroupOfBytes(a, 0, 0);
  }

  lemma TwoByteLanes(a: byte, b: byte)
    ensures var q := Sextets(Group(a, b, 0));
            q.q3 == 0 && DecodeQuad(Quad(q.q0, q.q1, q.q2, 0)) == [a, b, 0]
  {
    JoinSextets(Group(a, b, 0));
    GroupOfBytes(a, b, 0);
  }

  lemma DecodeEncodeOne(a: byte)
    ensures Decode(Encode([a])) == [a]
  {
    var q := Sextets(Group(a, 0, 0));
    var letters := [Letter(q.q0), Letter(q.q1)];
    PrefixOf(letters, [PAD, PAD]);
    assert Encode([a]) == letters + [PAD, PAD];
    FindLetter(q.q0);
    FindLetter(q.q1);
    OneByteLanes(a);
  }

  lemma DecodeEncodeTwo(a: byte, b: byte)
    ensures Decode(Encode([a, b])) == [a, b]
  {
    var q := Sextets(Group(a, b, 0));
    var letters := [Letter(q.q0), Letter(q.q1), Letter(q.q2)];
    PrefixOf(letters, [PAD]);
    assert Encode([a, b]) == letters + [PAD];
    FindLetter(q.q0);
    FindLetter(q.q1);
    FindLetter(q.q2);
    TwoByteLanes(a, b);
  }

  /** Every byte string survives encoding and decoding. */
  lemma {:induction false} DecodeEncode(x: seq<byte>)
    ensures Decode(Encode(x)) == x
  {
    if |x| == 1 {
      DecodeEncodeOne(x[0]);
      assert x == [x[0]];
    } else if |x| == 2 {
      DecodeEncodeTwo(x[0], x[1]);
      assert x == [x[0], x[1]];
    } else if x != [] {
      var s := EncodeGroup(x[0], x[1], x[2]);
      var rest := Encode(x[3..]);
      DecodeEncode(x[3..]);
      DecodeEncodeGroup(x[0], x[1], x[2]);
      DecodeWholeGroup(s, rest);
    }
  }

  lemma DecodeWholeGroup(s: seq<byte>, rest: seq<byte>)
    requires |s| == 4 && forall i :: 0 <= i < 4 ==> IsBase64(s[i])
    ensures Decode(s + rest) == DecodeQuad(Quad(Find(s[0]), Find(s[1]), Find(s[2]), Find(s[3]))) + Decode(rest)
  {
    var k := AlphabetPrefix(rest);
    PrefixOf(s + rest[..k], rest[k..]);
    assert s + rest == (s + rest[..k]) + rest[k..];
    assert (s + rest)[..4 + k] == s + rest[..k];
    assert (s + rest[..k])[4..] == rest[..k];
  }

  // ---------- when encoding undoes decoding ----------

  // A length divisible by four, at most two '=' and only at the end, and no stray bits under them.
  predicate Canonical(s: seq<byte>) {
    var k := AlphabetPrefix(s);
    && |s| % 4 == 0
    && PaddingFits(s[..k], s[k..])
  }

  predicate PaddingFits(letters: seq<byte>, pads: seq<byte>) {
    pads == [] ||
    ((pads == [PAD] || pads == [PAD, PAD]) && letters != [] && SpareBitsClear(letters[|letters| - 1], |pads|))
  }

  // The low bits of the last letter that `pads` padding characters leave unused.
  predicate SpareBitsClear(c: byte, pads: nat) {
    Find(c) & (if pads == 1 then 0x3 else 0xf) == 0
  }

  lemma SextetsJoin(q: Quad)
    requires q.q0 < 64 && q.q1 < 64 && q.q2 < 64 && q.q3 < 64
    ensures Sextets(Join(q)) == q
  {
  }

  lemma GroupFromGroupBytes(g: bv24)
    ensures var (a, b, c) := GroupBytes(g); Group(a, b, c) == g
  {
  }

  lemma EncodeDecodeGroup(s: seq<byte>)
    requires |s| == 4 && forall i :: 0 <= i < 4 ==> IsBase64(s[i])
    ensures var x := DecodeQuad(Quad(Find(s[0]), Find(s[1]), Find(s[2]), Find(s[3])));
            EncodeGroup(x[0], x[1], x[2]) == s
  {
    LetterFind(s[0]);
    LetterFind(s[1]);
    LetterFind(s[2]);
    LetterFind(s[3]);
    var q := Quad(Find(s[0]), Find(s[1]), Find(s[2]), Find(s[3]));
    SextetsJoin(q);
    GroupFromGroupBytes(Join(q));
  }

  lemma PrefixPastGroup(s: seq<byte>, rest: seq<byte>)
    requires |s| == 4 && forall i :: 0 <= i < 4 ==> IsBase64(s[i])
    ensures AlphabetPrefix(s + rest) == 4 + AlphabetPrefix(rest)
  {
    var k := AlphabetPrefix(rest);
    PrefixOf(s + rest[..k], rest[k..]);
    assert s + rest == (s + rest[..k]) + rest[k..];
  }

  lemma CanonicalPastGroup(s: seq<byte>, rest: seq<byte>)
    requires |s| == 4 && forall i :: 0 <= i < 4 ==> IsBase64(s[i])
    ensures Canonical(s + rest) <==> Canonical(rest)
  {
    hide AlphabetPrefix, IsBase64;
    PrefixPastGroup(s, rest);
    assert (s + rest)[4 + AlphabetPrefix(rest)..] == rest[AlphabetPrefix(rest)..];
    assert (s + rest)[..4 + AlphabetPrefix(rest)] == s + rest[..AlphabetPrefix(rest)];
    if AlphabetPrefix(rest) == 0 && (rest == [PAD] || rest == [PAD, PAD]) {
      assert |s + rest| % 4 != 0;
    }
  }

  lemma StrayBits1(v: byte)
    requires v < 64 && v & 0xf == 0
    ensures forall u: byte :: u < 64 ==> Sextets(Group(GroupBytes(Join(Quad(u, v, 0, 0))).0, 0, 0)) == Quad(u, v, 0, 0)
  {
  }

  lemma StrayBits2(v: byte)
    requires v < 64 && v & 0x3 == 0
    ensures forall t: byte, u: byte :: t < 64 && u < 64 ==>
      var (a, b, _) := GroupBytes(Join(Quad(t, u, v, 0))); Sextets(Group(a, b, 0)) == Quad(t, u, v, 0)
  {
  }

  lemma EncodeDecodeTail2(s: seq<byte>)
    requires |s| == 4 && Canonical(s) && AlphabetPrefix(s) == 2
    ensures Encode(Decode(s)) == s
  {
    var u, v := Find(s[0]), Find(s[1]);
    LetterFind(s[0]);
    LetterFind(s[1]);
    StrayBits1(v);
    assert s[..2] == [s[0], s[1]];
    assert Decode(s) == [GroupBytes(Join(Quad(u, v, 0, 0))).0];
    assert s == [Letter(u), Letter(v)] + [PAD, PAD];
  }

  lemma EncodeDecodeTail1(s: seq<byte>)
    requires |s| == 4 && Canonical(s) && AlphabetPrefix(s) == 3
    ensures Encode(Decode(s)) == s
  {
    var t, u, v := Find(s[0]), Find(s[1]), Find(s[2]);
    LetterFind(s[0]);
    LetterFind(s[1]);
    LetterFind(s[2]);
    StrayBits2(v);
    var (a, b, c) := GroupBytes(Join(Quad(t, u, v, 0)));
    assert s[..3] == [s[0], s[1], s[2]];
    assert Decode(s) == [a, b];
    assert s == [Letter(t), Letter(u), Letter(v)] + [PAD];
  }

  lemma {:induction false} CanonicalComesBack(s: seq<byte>)
    requires Canonical(s)
    ensures Encode(Decode(s)) == s
  {
    var k := AlphabetPrefix(s);
    if k >= 4 {
      PrefixPastGroup(s[..4], s[4..]);
      CanonicalPastGroup(s[..4], s[4..]);
      assert s == s[..4] + s[4..];
      CanonicalComesBack(s[4..]);
      DecodeWholeGroup(s[..4], s[4..]);
      EncodeDecodeGroup(s[..4]);
      var x := Decode(s);
      assert x[3..] == Decode(s[4..]);
    } else if s != [] {
      assert |s| == 4;
      if k == 2 {
        EncodeDecodeTail2(s);
      } else {
        EncodeDecodeTail1(s);
      }
    }
  }

  lemma {:induction false} EncodedIsCanonical(x: seq<byte>)
    ensures Canonical(Encode(x))
  {
    if |x| == 1 {
      var q := Sextets(Group(x[0], 0, 0));
      PrefixOf([Letter(q.q0), Letter(q.q1)], [PAD, PAD]);
      assert Encode(x) == [Letter(q.q0), Letter(q.q1)] + [PAD, PAD];
      FindLetter(q.q1);
    } else if |x| == 2 {
      var q := Sextets(Group(x[0], x[1], 0));
      PrefixOf([Letter(q.q0), Letter(q.q1), Letter(q.q2)], [PAD]);
      assert Encode(x) == [Letter(q.q0), Letter(q.q1), Letter(q.q2)] + [PAD];
      FindLetter(q.q2);
    } else if x != [] {
      EncodedIsCanonical(x[3..]);
      CanonicalPastGroup(EncodeGroup(x[0], x[1], x[2]), Encode(x[3..]));
    }
  }

  /** Encoding what was decoded gives the text back exactly when the text is canonical. */
  lemma EncodeDecode(s: seq<byte>)
    ensures Encode(Decode(s)) == s <==> Canonical(s)
  {
    EncodedIsCanonical(Decode(s));
    if Canonical(s) {
      CanonicalComesBack(s);
    }
  }

  // ---------- the encoder and decoder loops ----------

  method Store(buffer: array<byte>, i: nat, c: byte)
    requires i < buffer.Length
    modifies buffer
    ensures buffer[..i + 1] == old(buffer[..i]) + [c]
  {
    buffer[i] := c;
  }

  lemma SliceStep(s: seq<byte>, from: nat, at: nat)
    requires from <= at < |s|
    ensures s[from..at] + [s[at]] == s[from..at + 1] && s[at..][1..] == s[at + 1..]
  {
  }

  lemma {:induction false} EncodeAppend(x: seq<byte>, y: seq<byte>)
    requires |x| % 3 == 0
    ensures Encode(x + y) == Encode(x) + Encode(y)
  {
    if x == [] {
      assert x + y == y;
    } else {
      assert (x + y)[3..] == x[3..] + y;
      EncodeAppend(x[3..], y);
    }
  }

  lemma {:induction false} DecodeAppend(x: seq<byte>, y: seq<byte>)
    requires |x| % 4 == 0
    ensures DecodeLetters(x + y) == DecodeLetters(x) + DecodeLetters(y)
  {
    if x == [] {
      assert x + y == y;
    } else {
      assert (x + y)[4..] == x[4..] + y;
      DecodeAppend(x[4..], y);
    }
  }

  function Lanes(a: byte, b: byte, c: byte): Quad {
    Quad((a & 0xfc) >> 2,
         ((a & 0x03) << 4) + ((b & 0xf0) >> 4),
         ((b & 0x0f) << 2) + ((c & 0xc0) >> 6),
         c & 0x3f)
  }

  lemma LanesAreSextets(a: byte, b: byte, c: byte)
    ensures Lanes(a, b, c) == Sextets(Group(a, b, c))
  {
  }

  predicate Holds(lanes: array<byte>, q: Quad)
    requires lanes.Length == 4
    reads lanes
  {
    lanes[0] == q.q0 && lanes[1] == q.q1 && lanes[2] == q.q2 && lanes[3] == q.q3
  }

  method FillLanes(from: array<byte>, to: array<byte>)
    requires from.Length == 3 && to.Length == 4
    modifies to
    ensures Holds(to, Sextets(Group(old(from[0]), old(from[1]), old(from[2]))))
  {
    LanesAreSextets(from[0], from[1], from[2]);
    var q := Lanes(from[0], from[1], from[2]);
    to[0], to[1], to[2], to[3] := q.q0, q.q1, q.q2, q.q3;
  }

  method AppendLetters(text: seq<byte>, lanes: array<byte>, n: nat, ghost a: byte, ghost b: byte, ghost c: byte)
    returns (ret: seq<byte>)
    requires n <= 4 == lanes.Length && Holds(lanes, Sextets(Group(a, b, c)))
    ensures ret == text + EncodeGroup(a, b, c)[..n]
  {
    ret := text;
    var j := 0;
    while j < n
      invariant j <= n && ret == text + EncodeGroup(a, b, c)[..j]
    {
      assert lanes[j] == Lane(Sextets(Group(a, b, c)), j);
      ret := ret + [Letter(lanes[j])];
      j := j + 1;
    }
  }

  // The one or two bytes left in the buffer, zero-filled, encoded and padded.
  method EncodeLeftOver(three: array<byte>, four: array<byte>, i: nat, text: seq<byte>) returns (ret: seq<byte>)
    requires three.Length == 3 && four.Length == 4 && 0 < i < 3
    modifies three, four
    ensures ret == text + Encode(old(three[..i]))
  {
    ghost var kept := three[..i];
    var j := i;
    while j < 3
      invariant i <= j <= 3 && three[..i] == kept
      invariant forall k :: i <= k < j ==> three[k] == 0
    {
      three[j] := 0;
      j := j + 1;
    }
    assert three[0] == kept[0] && three[1] == (if i == 2 then kept[1] else 0) && three[2] == 0;
    FillLanes(three, four);
    ret := AppendLetters(text, four, i + 1, kept[0], if i == 2 then kept[1] else 0, 0);
    ghost var before := ret;
    j := i;
    while j < 3
      invariant i <= j <= 3 && ret == before + seq(j - i, _ => PAD)
    {
      ret := ret + [PAD];
      j := j + 1;
    }
    LeftOverIsEncoded(kept);
  }

  function LeftOver(x: seq<byte>): seq<byte>
    requires |x| == 1 || |x| == 2
  {
    EncodeGroup(x[0], if |x| == 2 then x[1] else 0, 0)[..|x| + 1] + seq(3 - |x|, _ => PAD)
  }

  lemma LeftOverIsEncoded(x: seq<byte>)
    requires |x| == 1 || |x| == 2
    ensures Encode(x) == LeftOver(x)
  {
    assert seq(1, _ => PAD) == [PAD] && seq(2, _ => PAD) == [PAD, PAD];
  }

  // A full buffer of three bytes becomes four letters.
  method EncodeFull(three: array<byte>, four: array<byte>, text: seq<byte>) returns (ret: seq<byte>)
    requires three.Length == 3 && four.Length == 4
    modifies four
    ensures ret == text + Encode(old(three[..3]))
  {
    ghost var x := three[..3];
    FillLanes(three, four);
    ret := AppendLetters(text, four, 4, x[0], x[1], x[2]);
    EncodeOneGroup(x);
  }

  lemma EncodeGrows(bytes: seq<byte>, done: nat, at: nat)
    requires done <= at <= |bytes| && done % 3 == 0
    ensures Encode(bytes[..at]) == Encode(bytes[..done]) + Encode(bytes[done..at])
  {
    EncodeAppend(bytes[..done], bytes[done..at]);
    assert bytes[..at] == bytes[..done] + bytes[done..at];
  }

  /** The encoder of base64.cpp, byte by byte through a three-byte buffer. */
  method EncodeBytes(bytes: seq<byte>, inLen: nat) returns (ret: seq<byte>)
    requires inLen <= |bytes|
    ensures ret == Encode(bytes[..inLen])
  {
    ret := [];
    var i, at := 0, 0;
    ghost var done := 0;
    var three, four := new byte[3], new byte[4];
    while at < inLen
      invariant at == done + i <= inLen && i < 3 && done % 3 == 0
      invariant three[..i] == bytes[done..at]
      invariant ret == Encode(bytes[..done])
    {
      Store(three, i, bytes[at]);
      SliceStep(bytes, done, at);
      i, at := i + 1, at + 1;
      if i == 3 {
        ret := EncodeFull(three, four, ret);
        EncodeGrows(bytes, done, at);
        assert (done + 3) % 3 == done % 3;
        i, done := 0, done + 3;
      }
    }
    if i > 0 {
      EncodeGrows(bytes, done, at);
      ret := EncodeLeftOver(three, four, i, ret);
    }
  }

  lemma EncodeOneGroup(x: seq<byte>)
    requires |x| == 3
    ensures Encode(x) == EncodeGroup(x[0], x[1], x[2])
  {
    assert Encode(x[3..]) == [];
  }

  // ---------- decoding ----------

  function ByteA(q0: byte, q1: byte): byte { (q0 << 2) + ((q1 & 0x30) >> 4) }
  function ByteB(q1: byte, q2: byte): byte { ((q1 & 0xf) << 4) + ((q2 & 0x3c) >> 2) }
  function ByteC(q2: byte, q3: byte): byte { ((q2 & 0x3) << 6) + q3 }

  // Each output byte depends on two neighbouring lanes only.
  lemma ByteAOfQuad(q: Quad)
    requires q.q0 < 64 && q.q1 < 64
    ensures DecodeQuad(q.(q2 := 0, q3 := 0))[0] == ByteA(q.q0, q.q1)
    ensures q.q2 < 64 ==> DecodeQuad(q.(q3 := 0))[0] == ByteA(q.q0, q.q1)
    ensures q.q2 < 64 && q.q3 < 64 ==> DecodeQuad(q)[0] == ByteA(q.q0, q.q1)
  {
  }

  lemma ByteBOfQuad(q: Quad)
    requires q.q0 < 64 && q.q1 < 64 && q.q2 < 64
    ensures DecodeQuad(q.(q3 := 0))[1] == ByteB(q.q1, q.q2)
    ensures q.q3 < 64 ==> DecodeQuad(q)[1] == ByteB(q.q1, q.q2)
  {
  }

  lemma ByteCOfQuad(q: Quad)
    requires q.q0 < 64 && q.q1 < 64 && q.q2 < 64 && q.q3 < 64
    ensures DecodeQuad(q)[2] == ByteC(q.q2, q.q3)
  {
  }

  // Looks all four lanes up and combines neighbours; the arithmetic is that of unsigned char.
  method LookUpAndJoin(four: array<byte>, three: array<byte>)
    requires four.Length == 4 && three.Length == 3 && four != three
    modifies four, three
    ensures three[0] == ByteA(Find(old(four[0])), Find(old(four[1])))
    ensures three[1] == ByteB(Find(old(four[1])), Find(old(four[2])))
    ensures three[2] == ByteC(Find(old(four[2])), Find(old(four[3])))
  {
    var j := 0;
    while j < 4
      invariant j <= 4 && forall k :: 0 <= k < 4 ==> four[k] == if k < j then Find(old(four[k])) else old(four[k])
    {
      four[j] := Find(four[j]);
      j := j + 1;
    }
    three[0] := ByteA(four[0], four[1]);
    three[1] := ByteB(four[1], four[2]);
    three[2] := ByteC(four[2], four[3]);
  }

  method AppendBytes(text: seq<byte>, three: array<byte>, n: nat) returns (ret: seq<byte>)
    requires n <= three.Length
    ensures ret == text + three[..n]
  {
    ret := text;
    var j := 0;
    while j < n
      invariant j <= n && ret == text + three[..j]
    {
      ret := ret + [three[j]];
      j := j + 1;
    }
  }

  predicate AllLetters(s: seq<byte>) {
    forall i :: 0 <= i < |s| ==> IsBase64(s[i])
  }

  lemma LettersDecoded(s: seq<byte>, t: seq<byte>)
    requires 2 <= |s| <= 4 && |t| == |s| - 1 && AllLetters(s)
    requires t[0] == ByteA(Find(s[0]), Find(s[1]))
    requires |s| > 2 ==> t[1] == ByteB(Find(s[1]), Find(s[2]))
    requires |s| > 3 ==> t[2] == ByteC(Find(s[2]), Find(s[3]))
    ensures DecodeLetters(s) == t
  {
    LetterFind(s[0]);
    LetterFind(s[1]);
    if |s| > 2 {
      LetterFind(s[2]);
    }
    if |s| > 3 {
      LetterFind(s[3]);
    }
    var q := Quad(Find(s[0]), Find(s[1]), if |s| > 2 then Find(s[2]) else 0, if |s| > 3 then Find(s[3]) else 0);
    ByteAOfQuad(q);
    ByteBOfQuad(q);
    ByteCOfQuad(q);
    assert |s| == 4 ==> DecodeLetters(s[4..]) == [];
  }

  // The lanes past i hold NUL, which is looked up as 0xFF, and never reach the output.
  method DecodeLanes(four: array<byte>, three: array<byte>, i: nat, text: seq<byte>) returns (ret: seq<byte>)
    requires four.Length == 4 && three.Length == 3 && four != three && 0 < i <= 4
    requires AllLetters(four[..i])
    modifies four, three
    ensures ret == text + DecodeLetters(old(four[..i]))
  {
    ghost var kept := four[..i];
    var j := i;
    while j < 4
      invariant i <= j <= 4 && four[..i] == kept
    {
      four[j] := 0;
      j := j + 1;
    }
    assert four[0] == kept[0] && (i > 1 ==> four[1] == kept[1]);
    assert (i > 2 ==> four[2] == kept[2]) && (i > 3 ==> four[3] == kept[3]);
    LookUpAndJoin(four, three);
    ret := AppendBytes(text, three, i - 1);
    if i > 1 {
      LettersDecoded(kept, three[..i - 1]);
    }
  }

  lemma DecodeGrows(s: seq<byte>, done: nat, at: nat)
    requires done <= at <= |s| && done % 4 == 0
    ensures DecodeLetters(s[..at]) == DecodeLetters(s[..done]) + DecodeLetters(s[done..at])
  {
    DecodeAppend(s[..done], s[done..at]);
    assert s[..at] == s[..done] + s[done..at];
  }

  lemma SliceOfPrefix(s: seq<byte>, done: nat, at: nat)
    requires done <= at <= AlphabetPrefix(s)
    ensures AllLetters(s[done..at])
  {
  }

  lemma NothingDecoded(s: seq<byte>)
    ensures DecodeLetters(s[..0]) == [] && s[0..] == s
  {
  }

  lemma PrefixStep(s: seq<byte>, at: nat)
    requires at < |s| && s[at] != PAD && IsBase64(s[at])
    ensures AlphabetPrefix(s[at..]) == 1 + AlphabetPrefix(s[at + 1..])
  {
    assert s[at..][1..] == s[at + 1..];
  }

  lemma PrefixStop(s: seq<byte>, at: nat)
    requires at <= |s| && (at < |s| ==> s[at] == PAD || !IsBase64(s[at]))
    ensures AlphabetPrefix(s[at..]) == 0
  {
  }

  // Decodes the i letters of s from `done` on that are in the buffer.
  method Flush(four: array<byte>, three: array<byte>, i: nat, text: seq<byte>, ghost s: seq<byte>, ghost done: nat)
    returns (ret: seq<byte>)
    requires four.Length == 4 && three.Length == 3 && four != three && 0 < i <= 4
    requires done % 4 == 0 && done + i <= AlphabetPrefix(s)
    requires four[..i] == s[done..done + i] && text == DecodeLetters(s[..done])
    modifies four, three
    ensures ret == DecodeLetters(s[..done + i])
  {
    SliceOfPrefix(s, done, done + i);
    DecodeGrows(s, done, done + i);
    ret := DecodeLanes(four, three, i, text);
  }

  /** The decoder of base64.cpp, letter by letter through a four-letter buffer. */
  method DecodeText(s: seq<byte>) returns (ret: seq<byte>)
    ensures ret == Decode(s)
  {
    hide DecodeLetters;
    ret := [];
    var inLen := |s|;
    var i, at := 0, 0;
    ghost var done := 0;
    NothingDecoded(s);
    var four, three := new byte[4], new byte[3];
    while inLen > 0 && s[at] != PAD && IsBase64(s[at])
      invariant at + inLen == |s| && at == done + i && 0 <= i < 4 && 0 <= done && 0 <= inLen && done % 4 == 0
      invariant AlphabetPrefix(s) == at + AlphabetPrefix(s[at..])
      invariant four[..i] == s[done..at]
      invariant ret == DecodeLetters(s[..done])
      decreases inLen
    {
      Store(four, i, s[at]);
      SliceStep(s, done, at);
      PrefixStep(s, at);
      i, at, inLen := i + 1, at + 1, inLen - 1;
      if i == 4 {
        ret := Flush(four, three, 4, ret, s, done);
        assert (done + 4) % 4 == done % 4;
        i, done := 0, done + 4;
      }
    }
    PrefixStop(s, at);
    if i > 0 {
      ret := Flush(four, three, i, ret, s, done);
    }
  }

  // ---------- the text in letters ----------

  const UPPER: string := "ABCDEFGHIJKLMNOPQRSTUVWXYZ"
  const LOWER: string := "abcdefghijklmnopqrstuvwxyz"
  const ALPHABET: string := UPPER + LOWER + "0123456789" + "+/"

  lemma UpperSpelled(v: byte)
    requires v < 26
    ensures |UPPER| == 26 && Letter(v) as int == UPPER[v as int] as int
  {
  }

  lemma LowerSpelled(v: byte)
    requires 26 <= v < 52
    ensures |LOWER| == 26 && Letter(v) as int == LOWER[v as int - 26] as int
  {
  }

  lemma DigitSpelled(v: byte)
    requires 52 <= v < 62
    ensures Letter(v) as int == "0123456789"[v as int - 52] as int
  {
  }

  lemma SignSpelled(v: byte)
    requires 62 <= v < 64
    ensures Letter(v) as int == "+/"[v as int - 62] as int
  {
  }

  lemma LetterSpelled(v: byte)
    requires v < 64
    ensures |ALPHABET| == 64 && Letter(v) as int == ALPHABET[v as int] as int
  {
    hide Letter;
    if v < 26 {
      UpperSpelled(v);
    } else if v < 52 {
      LowerSpelled(v);
    } else if v < 62 {
      DigitSpelled(v);
    } else {
      SignSpelled(v);
    }
  }

  // The four digits to base 64 of three bytes read as one number, most significant first.
  function SixtyFours(a: byte, b: byte, c: byte): (d: seq<nat>)
    ensures |d| == 4 && forall i :: 0 <= i < 4 ==> d[i] < 64
  {
    var x, y, z := a as int, b as int, c as int;
    [x / 4, x % 4 * 16 + y / 16, y % 16 * 4 + z / 64, z % 64]
  }

  lemma SextetBits(a: byte, b: byte, c: byte)
    ensures var q := Sextets(Group(a, b, c));
            && q.q0 == a >> 2 && q.q1 == ((a & 3) << 4) + (b >> 4)
            && q.q2 == ((b & 15) << 2) + (c >> 6) && q.q3 == c & 63
  {
  }

  lemma Quotients(x: byte)
    ensures (x >> 2) as int == x as int / 4 && (x >> 4) as int == x as int / 16 && (x >> 6) as int == x as int / 64
  {
  }

  lemma Remainder4(x: byte)
    ensures (x & 3) as int == x as int % 4
  {
  }

  lemma Remainder16(x: byte)
    ensures (x & 15) as int == x as int % 16
  {
  }

  lemma Remainder64(x: byte)
    ensures (x & 63) as int == x as int % 64
  {
  }

  lemma Joined(x: byte, y: byte)
    ensures x < 4 && y < 16 ==> ((x << 4) + y) as int == x as int * 16 + y as int
    ensures x < 16 && y < 4 ==> ((x << 2) + y) as int == x as int * 4 + y as int
  {
  }

  lemma SmallPieces(x: byte)
    ensures x & 3 < 4 && x >> 4 < 16 && x & 15 < 16 && x >> 6 < 4
  {
  }

  lemma SextetsSpelled(a: byte, b: byte, c: byte)
    ensures var q, d := Sextets(Group(a, b, c)), SixtyFours(a, b, c);
            q.q0 as int == d[0] && q.q1 as int == d[1] && q.q2 as int == d[2] && q.q3 as int == d[3]
  {
    hide Sextets, Group;
    SextetBits(a, b, c);
    Quotients(a);
    Quotients(b);
    Quotients(c);
    Remainder4(a);
    Remainder16(b);
    Remainder64(c);
    SmallPieces(a);
    SmallPieces(b);
    SmallPieces(c);
    Joined(a & 3, b >> 4);
    Joined(b & 15, c >> 6);
  }

  lemma GroupSpelled(a: byte, b: byte, c: byte, k: nat)
    requires k < 4
    ensures EncodeGroup(a, b, c)[k] as int == ALPHABET[SixtyFours(a, b, c)[k]] as int
  {
    hide Letter, SixtyFours, Sextets, Group;
    var q := Sextets(Group(a, b, c));
    SextetsSpelled(a, b, c);
    LetterSpelled(q.q0);
    LetterSpelled(q.q1);
    LetterSpelled(q.q2);
    LetterSpelled(q.q3);
  }

  // Byte k of x, zero past the end.
  function ByteAt(x: seq<byte>, k: nat): byte { if k < |x| then x[k] else 0 }

  /** Group i of the text spells bytes 3i to 3i + 2 in the alphabet; where these are past the end there is padding. */
  lemma {:induction false} EncodeSpells(x: seq<byte>, i: nat, k: nat)
    requires 3 * i < |x| && k < 4
    ensures |Encode(x)| >= 4 * i + 4
    ensures Encode(x)[4 * i + k] as int ==
            if k < 2 || 3 * i + k - 1 < |x|
            then ALPHABET[SixtyFours(ByteAt(x, 3 * i), ByteAt(x, 3 * i + 1), ByteAt(x, 3 * i + 2))[k]] as int
            else '=' as int
    decreases i
  {
    hide EncodeGroup, SixtyFours;
    EncodedLength(x);
    if i == 0 {
      GroupSpelled(ByteAt(x, 0), ByteAt(x, 1), ByteAt(x, 2), k);
    } else {
      EncodeSpells(x[3..], i - 1, k);
    }
  }
}
