/** The CRAM-MD5 answer of CSmtp.cpp: HMAC-MD5 (section 2 of RFC 2104) behind a base64 envelope. */
module CramMd5 {
  import opened Bytes
  import Md5Rfc
  import Md5
  import Base64

  const SPACE: byte := 32

  function Mask(b: byte, k: byte): byte { b ^ k }

  function Xor(s: seq<byte>, k: byte): (x: seq<byte>)
    ensures |x| == |s|
  {
    seq(|s|, i requires 0 <= i < |s| => Mask(s[i], k))
  }

  // The key of the outer and inner hash: hashed first when longer than a block, then zero-filled.
  function BlockKey(key: seq<byte>): (k: seq<byte>)
    ensures |k| == 64
  {
    if |key| > 64 then Md5Rfc.Digest(key) + Zeros(48) else key + Zeros(64 - |key|)
  }

  function Hmac(key: seq<byte>, text: seq<byte>): (d: seq<byte>)
    ensures |d| == 16
  {
    var k := BlockKey(key);
    Md5Rfc.Digest(Xor(k, 0x5c) + Md5Rfc.Digest(Xor(k, 0x36) + text))
  }

  // Byte j of the zero-filled key: the password, or its digest when longer than a block.
  function KeyByte(password: seq<byte>, j: nat): byte {
    var key := if |password| > 64 then Md5Rfc.Digest(password) else password;
    if j < |key| then key[j] else 0
  }

  // The pads of section 2 of RFC 2104: 0x36 masks the key of the inner hash, 0x5c that of the outer.
  predicate Pads(password: seq<byte>, inner: seq<byte>, outer: seq<byte>) {
    && |inner| == 64 && |outer| == 64
    && forall j :: 0 <= j < 64 ==>
         inner[j] ^ 0x36 == KeyByte(password, j) && outer[j] ^ 0x5c == KeyByte(password, j)
  }

  // The text is the hexadecimal form of the code that such pads give.
  ghost predicate CodesFor(password: seq<byte>, challenge: seq<byte>, hex: seq<byte>) {
    exists inner, outer :: Pads(password, inner, outer) &&
      hex == Md5.Hex(Md5Rfc.Digest(outer + Md5Rfc.Digest(inner + challenge)))
  }

  lemma MaskTwice(b: byte, k: byte)
    ensures Mask(b, k) ^ k == b
  {
  }

  lemma PadsOfKey(password: seq<byte>)
    ensures Pads(password, Xor(BlockKey(password), 0x36), Xor(BlockKey(password), 0x5c))
  {
    hide Mask;
    forall j | 0 <= j < 64
      ensures Xor(BlockKey(password), 0x36)[j] ^ 0x36 == KeyByte(password, j)
      ensures Xor(BlockKey(password), 0x5c)[j] ^ 0x5c == KeyByte(password, j)
    {
      MaskTwice(BlockKey(password)[j], 0x36);
      MaskTwice(BlockKey(password)[j], 0x5c);
    }
  }

  lemma HmacCodes(password: seq<byte>, challenge: seq<byte>)
    ensures CodesFor(password, challenge, Md5.Hex(Hmac(password, challenge)))
  {
    PadsOfKey(password);
  }

  // What strlen sees of a NUL-terminated copy of s.
  function StrLen(s: seq<byte>): (n: nat)
    ensures n <= |s| && (forall i :: 0 <= i < n ==> s[i] != 0) && (n < |s| ==> s[n] == 0)
  {
    if s == [] || s[0] == 0 then 0 else 1 + StrLen(s[1..])
  }

  // The copy made by CharToUnsignedChar holds strlen + 1 bytes, yet size() bytes are read from it.
  predicate ReadInBounds(s: seq<byte>) { |s| <= StrLen(s) + 1 }

  /** Reading size() bytes stays inside the copy exactly when no NUL precedes the last byte. */
  lemma ReadInBoundsIff(s: seq<byte>)
    ensures ReadInBounds(s) <==> forall i :: 0 <= i < |s| - 1 ==> s[i] != 0
  {
    if StrLen(s) + 1 < |s| {
      assert s[StrLen(s)] == 0;
    }
  }

  method CharToUnsignedChar(s: seq<byte>) returns (out: array<byte>)
    ensures fresh(out) && out.Length == StrLen(s) + 1
    ensures out[..] == s[..StrLen(s)] + [0]
  {
    var length := StrLen(s);
    out := new byte[length + 1];
    var i := 0;
    while i < length
      invariant i <= length && out[..i] == s[..i]
    {
      out[i] := s[i];
      i := i + 1;
    }
    out[length] := 0;
  }

  lemma CopyAgrees(s: seq<byte>, copy: seq<byte>)
    requires ReadInBounds(s) && copy == s[..StrLen(s)] + [0]
    ensures |s| <= |copy| && copy[..|s|] == s
  {
    hide StrLen;
    if StrLen(s) < |s| {
      assert s == s[..StrLen(s)] + [s[StrLen(s)]];
    } else {
      assert copy[..|s|] == s[..StrLen(s)];
    }
  }

  // One MD5 object fed with two pieces and finalized.
  method HashTwo(first: seq<byte>, second: seq<byte>, secondLength: nat) returns (md5: Md5.MD5)
    requires |first| == 64 && secondLength <= |second| && secondLength < 0x1_0000_0000
    ensures fresh(md5.Repr()) && md5.Shape() && md5.finalized
    ensures md5.digest[..] == Md5Rfc.Digest(first + second[..secondLength])
  {
    md5 := new Md5.MD5();
    md5.Update(first, 64);
    assert [] + first[..64] == first;
    md5.Update(second, secondLength);
    md5.Finalize();
  }

  method HashKey(key: seq<byte>, keyLength: nat) returns (digest: seq<byte>)
    requires keyLength <= |key| && keyLength < 0x1_0000_0000
    ensures digest == Md5Rfc.Digest(key[..keyLength])
  {
    var md5 := new Md5.MD5();
    md5.Update(key, keyLength);
    assert [] + key[..keyLength] == key[..keyLength];
    md5.Finalize();
    digest := md5.RawDigest();
  }

  method ApplyMask(pad: array<byte>, mask: byte)
    requires pad.Length == 65
    modifies pad
    ensures pad[..64] == Xor(old(pad[..64]), mask)
  {
    var i := 0;
    while i < 64
      invariant i <= 64
      invariant forall k :: 0 <= k < 64 ==> pad[k] == if k < i then Mask(old(pad[k]), mask) else old(pad[k])
    {
      pad[i] := Mask(pad[i], mask);
      i := i + 1;
    }
  }

  // Zero-fills 64 of the 65 bytes, copies the key over them and masks all 64.
  method FillPad(pad: array<byte>, key: seq<byte>, keyLength: nat, mask: byte)
    requires pad.Length == 65 && keyLength <= 64 && keyLength <= |key|
    modifies pad
    ensures pad[..64] == Xor(key[..keyLength] + Zeros(64 - keyLength), mask)
  {
    Md5.MD5.Memset(pad, 0, 64);
    ghost var zeroed := pad[..];
    Md5.MD5.Memcpy(pad, 0, key, 0, keyLength);
    assert pad[..64] == key[..keyLength] + zeroed[..64][keyLength..];
    ApplyMask(pad, mask);
  }

  // The text answered to a decoded challenge, before the base64 envelope.
  function Answer(login: seq<byte>, password: seq<byte>, challenge: seq<byte>): seq<byte> {
    login + [SPACE] + Md5.Hex(Hmac(password, challenge))
  }

  // A copy of the password, or of its MD5 when it is longer than a block.
  method KeyBytes(password: seq<byte>) returns (key: seq<byte>, keyLength: nat)
    requires ReadInBounds(password) && |password| < 0x1_0000_0000
    ensures keyLength <= 64 && keyLength <= |key|
    ensures key[..keyLength] + Zeros(64 - keyLength) == BlockKey(password)
  {
    var ustrPassword := CharToUnsignedChar(password);
    CopyAgrees(password, ustrPassword[..]);
    key, keyLength := ustrPassword[..], |password|;
    if keyLength > 64 {
      key := HashKey(key, keyLength);
      keyLength := 16;
      assert key[..16] == key;
    }
  }

  method HmacHex(password: seq<byte>, challenge: seq<byte>) returns (hex: seq<byte>)
    requires ReadInBounds(password) && ReadInBounds(challenge)
    requires |password| < 0x1_0000_0000 && |challenge| < 0x1_0000_0000
    ensures hex == Md5.Hex(Hmac(password, challenge)) && CodesFor(password, challenge, hex)
  {
    hide StrLen, ReadInBounds, CodesFor, BlockKey, Xor, Md5Rfc.Digest, Md5.Hex;
    var ustrChallenge := CharToUnsignedChar(challenge);
    CopyAgrees(challenge, ustrChallenge[..]);
    var text := ustrChallenge[..];
    var key, keyLength := KeyBytes(password);
    var ipad, opad := new byte[65], new byte[65];
    FillPad(ipad, key, keyLength, 0x36);
    FillPad(opad, key, keyLength, 0x5c);
    var inner := HashTwo(ipad[..64], text, |challenge|);
    var result := inner.RawDigest();
    var outer := HashTwo(opad[..64], result, 16);
    assert result[..16] == result;
    hex := outer.HexDigest();
    HmacCodes(password, challenge);
  }

  /** The encoded answer, and what a server finds in it. */
  method Respond(login: seq<byte>, password: seq<byte>, challenge: seq<byte>) returns (encoded: seq<byte>)
    requires ReadInBounds(password) && ReadInBounds(challenge)
    requires |password| < 0x1_0000_0000 && |challenge| < 0x1_0000_0000
    ensures encoded == Base64.Encode(Answer(login, password, challenge))
    ensures Base64.Decode(encoded) == login + [SPACE] + Md5.Hex(Hmac(password, challenge))
    ensures exists hex :: CodesFor(password, challenge, hex) && Base64.Decode(encoded) == login + [32] + hex
  {
    var hex := HmacHex(password, challenge);
    var plain := login + [SPACE] + hex;
    encoded := Base64.EncodeBytes(plain, |plain|);
    assert plain[..|plain|] == plain;
    Base64.DecodeEncode(plain);
  }

  /** The answer determines the authentication code: its last 32 characters are lower-case hex of it. */
  lemma AnswerCarriesHmac(login: seq<byte>, password: seq<byte>, challenge: seq<byte>)
    ensures var a := Answer(login, password, challenge);
            |a| == |login| + 33 && a[..|login|] == login && a[|login|] == SPACE &&
            (forall i :: |login| < i < |a| ==> Md5.LowerHexDigit(a[i])) &&
            Md5.Unhex(a[|login| + 1..]) == Hmac(password, challenge)
  {
    Md5.UnhexHex(Hmac(password, challenge));
    var a := Answer(login, password, challenge);
    assert a[|login| + 1..] == Md5.Hex(Hmac(password, challenge));
  }
}
