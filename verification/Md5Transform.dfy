/** The 64 unrolled steps of `MD5::transform`, proved equal to the table-driven steps of RFC 1321. */
module Md5Transform {
  import opened Md5Rfc

  const S11: bv5 := 7
  const S12: bv5 := 12
  const S13: bv5 := 17
  const S14: bv5 := 22
  const S21: bv5 := 5
  const S22: bv5 := 9
  const S23: bv5 := 14
  const S24: bv5 := 20
  const S31: bv5 := 4
  const S32: bv5 := 11
  const S33: bv5 := 16
  const S34: bv5 := 23
  const S41: bv5 := 6
  const S42: bv5 := 10
  const S43: bv5 := 15
  const S44: bv5 := 21

  // The reference parameter `a` of the original is passed in and handed back.
  method FF<W>(m: WordOps<W>, a: W, b: W, c: W, d: W, x: W, s: bv5, ac: bv32) returns (r: W)
    ensures r == m.plus(m.rotateLeft(m.plus(a, m.plus(m.plus(m.f(b, c, d), x), m.literal(ac))), s), b)
  {
    r := a;
    r := m.plus(r, m.plus(m.plus(m.f(b, c, d), x), m.literal(ac)));
    r := m.plus(m.rotateLeft(r, s), b);
  }

  method GG<W>(m: WordOps<W>, a: W, b: W, c: W, d: W, x: W, s: bv5, ac: bv32) returns (r: W)
    ensures r == m.plus(m.rotateLeft(m.plus(a, m.plus(m.plus(m.g(b, c, d), x), m.literal(ac))), s), b)
  {
    r := a;
    r := m.plus(r, m.plus(m.plus(m.g(b, c, d), x), m.literal(ac)));
    r := m.plus(m.rotateLeft(r, s), b);
  }

  method HH<W>(m: WordOps<W>, a: W, b: W, c: W, d: W, x: W, s: bv5, ac: bv32) returns (r: W)
    ensures r == m.plus(m.rotateLeft(m.plus(a, m.plus(m.plus(m.h(b, c, d), x), m.literal(ac))), s), b)
  {
    r := a;
    r := m.plus(r, m.plus(m.plus(m.h(b, c, d), x), m.literal(ac)));
    r := m.plus(m.rotateLeft(r, s), b);
  }

  method II<W>(m: WordOps<W>, a: W, b: W, c: W, d: W, x: W, s: bv5, ac: bv32) returns (r: W)
    ensures r == m.plus(m.rotateLeft(m.plus(a, m.plus(m.plus(m.i(b, c, d), x), m.literal(ac))), s), b)
  {
    r := a;
    r := m.plus(r, m.plus(m.plus(m.i(b, c, d), x), m.literal(ac)));
    r := m.plus(m.rotateLeft(r, s), b);
  }

  ghost predicate Schedule1<W>(m: WordOps<W>) {
    && m.entry(0) == Entry(0, S11, m.literal(0xd76aa478))
    && m.entry(1) == Entry(1, S12, m.literal(0xe8c7b756))
    && m.entry(2) == Entry(2, S13, m.literal(0x242070db))
    && m.entry(3) == Entry(3, S14, m.literal(0xc1bdceee))
    && m.entry(4) == Entry(4, S11, m.literal(0xf57c0faf))
    && m.entry(5) == Entry(5, S12, m.literal(0x4787c62a))
    && m.entry(6) == Entry(6, S13, m.literal(0xa8304613))
    && m.entry(7) == Entry(7, S14, m.literal(0xfd469501))
    && m.entry(8) == Entry(8, S11, m.literal(0x698098d8))
    && m.entry(9) == Entry(9, S12, m.literal(0x8b44f7af))
    && m.entry(10) == Entry(10, S13, m.literal(0xffff5bb1))
    && m.entry(11) == Entry(11, S14, m.literal(0x895cd7be))
    && m.entry(12) == Entry(12, S11, m.literal(0x6b901122))
    && m.entry(13) == Entry(13, S12, m.literal(0xfd987193))
    && m.entry(14) == Entry(14, S13, m.literal(0xa679438e))
    && m.entry(15) == Entry(15, S14, m.literal(0x49b40821))
  }

  ghost predicate Schedule2<W>(m: WordOps<W>) {
    && m.entry(16) == Entry(1, S21, m.literal(0xf61e2562))
    && m.entry(17) == Entry(6, S22, m.literal(0xc040b340))
    && m.entry(18) == Entry(11, S23, m.literal(0x265e5a51))
    && m.entry(19) == Entry(0, S24, m.literal(0xe9b6c7aa))
    && m.entry(20) == Entry(5, S21, m.literal(0xd62f105d))
    && m.entry(21) == Entry(10, S22, m.literal(0x2441453))
    && m.entry(22) == Entry(15, S23, m.literal(0xd8a1e681))
    && m.entry(23) == Entry(4, S24, m.literal(0xe7d3fbc8))
    && m.entry(24) == Entry(9, S21, m.literal(0x21e1cde6))
    && m.entry(25) == Entry(14, S22, m.literal(0xc33707d6))
    && m.entry(26) == Entry(3, S23, m.literal(0xf4d50d87))
    && m.entry(27) == Entry(8, S24, m.literal(0x455a14ed))
    && m.entry(28) == Entry(13, S21, m.literal(0xa9e3e905))
    && m.entry(29) == Entry(2, S22, m.literal(0xfcefa3f8))
    && m.entry(30) == Entry(7, S23, m.literal(0x676f02d9))
    && m.entry(31) == Entry(12, S24, m.literal(0x8d2a4c8a))
  }

  ghost predicate Schedule3<W>(m: WordOps<W>) {
    && m.entry(32) == Entry(5, S31, m.literal(0xfffa3942))
    && m.entry(33) == Entry(8, S32, m.literal(0x8771f681))
    && m.entry(34) == Entry(11, S33, m.literal(0x6d9d6122))
    && m.entry(35) == Entry(14, S34, m.literal(0xfde5380c))
    && m.entry(36) == Entry(1, S31, m.literal(0xa4beea44))
    && m.entry(37) == Entry(4, S32, m.literal(0x4bdecfa9))
    && m.entry(38) == Entry(7, S33, m.literal(0xf6bb4b60))
    && m.entry(39) == Entry(10, S34, m.literal(0xbebfbc70))
    && m.entry(40) == Entry(13, S31, m.literal(0x289b7ec6))
    && m.entry(41) == Entry(0, S32, m.literal(0xeaa127fa))
    && m.entry(42) == Entry(3, S33, m.literal(0xd4ef3085))
    && m.entry(43) == Entry(6, S34, m.literal(0x4881d05))
    && m.entry(44) == Entry(9, S31, m.literal(0xd9d4d039))
    && m.entry(45) == Entry(12, S32, m.literal(0xe6db99e5))
    && m.entry(46) == Entry(15, S33, m.literal(0x1fa27cf8))
    && m.entry(47) == Entry(2, S34, m.literal(0xc4ac5665))
  }

  ghost predicate Schedule4<W>(m: WordOps<W>) {
    && m.entry(48) == Entry(0, S41, m.literal(0xf4292244))
    && m.entry(49) == Entry(7, S42, m.literal(0x432aff97))
    && m.entry(50) == Entry(14, S43, m.literal(0xab9423a7))
    && m.entry(51) == Entry(5, S44, m.literal(0xfc93a039))
    && m.entry(52) == Entry(12, S41, m.literal(0x655b59c3))
    && m.entry(53) == Entry(3, S42, m.literal(0x8f0ccc92))
    && m.entry(54) == Entry(10, S43, m.literal(0xffeff47d))
    && m.entry(55) == Entry(1, S44, m.literal(0x85845dd1))
    && m.entry(56) == Entry(8, S41, m.literal(0x6fa87e4f))
    && m.entry(57) == Entry(15, S42, m.literal(0xfe2ce6e0))
    && m.entry(58) == Entry(6, S43, m.literal(0xa3014314))
    && m.entry(59) == Entry(13, S44, m.literal(0x4e0811a1))
    && m.entry(60) == Entry(4, S41, m.literal(0xf7537e82))
    && m.entry(61) == Entry(11, S42, m.literal(0xbd3af235))
    && m.entry(62) == Entry(2, S43, m.literal(0x2ad7d2bb))
    && m.entry(63) == Entry(9, S44, m.literal(0xeb86d391))
  }

  method Round1<W>(m: WordOps<W>, a0: W, b0: W, c0: W, d0: W, x: seq<W>)
    returns (a: W, b: W, c: W, d: W)
    requires |x| == 16 && Schedule1(m)
    ensures Regs(a, b, c, d) == Steps(m, Regs(a0, b0, c0, d0), x, 0, 16)
  {
    a, b, c, d := a0, b0, c0, d0;
    a := FF(m, a, b, c, d, x[0], S11, 0xd76aa478);
    assert Regs(d, a, b, c) == Steps(m, Regs(a0, b0, c0, d0), x, 0, 1);
    d := FF(m, d, a, b, c, x[1], S12, 0xe8c7b756);
    assert Regs(c, d, a, b) == Steps(m, Regs(a0, b0, c0, d0), x, 0, 2);
    c := FF(m, c, d, a, b, x[2], S13, 0x242070db);
    assert Regs(b, c, d, a) == Steps(m, Regs(a0, b0, c0, d0), x, 0, 3);
    b := FF(m, b, c, d, a, x[3], S14, 0xc1bdceee);
    assert Regs(a, b, c, d) == Steps(m, Regs(a0, b0, c0, d0), x, 0, 4);
    a := FF(m, a, b, c, d, x[4], S11, 0xf57c0faf);
    assert Regs(d, a, b, c) == Steps(m, Regs(a0, b0, c0, d0), x, 0, 5);
    d := FF(m, d, a, b, c, x[5], S12, 0x4787c62a);
    assert Regs(c, d, a, b) == Steps(m, Regs(a0, b0, c0, d0), x, 0, 6);
    c := FF(m, c, d, a, b, x[6], S13, 0xa8304613);
    assert Regs(b, c, d, a) == Steps(m, Regs(a0, b0, c0, d0), x, 0, 7);
    b := FF(m, b, c, d, a, x[7], S14, 0xfd469501);
    assert Regs(a, b, c, d) == Steps(m, Regs(a0, b0, c0, d0), x, 0, 8);
    a := FF(m, a, b, c, d, x[8], S11, 0x698098d8);
    assert Regs(d, a, b, c) == Steps(m, Regs(a0, b0, c0, d0), x, 0, 9);
    d := FF(m, d, a, b, c, x[9], S12, 0x8b44f7af);
    assert Regs(c, d, a, b) == Steps(m, Regs(a0, b0, c0, d0), x, 0, 10);
    c := FF(m, c, d, a, b, x[10], S13, 0xffff5bb1);
    assert Regs(b, c, d, a) == Steps(m, Regs(a0, b0, c0, d0), x, 0, 11);
    b := FF(m, b, c, d, a, x[11], S14, 0x895cd7be);
    assert Regs(a, b, c, d) == Steps(m, Regs(a0, b0, c0, d0), x, 0, 12);
    a := FF(m, a, b, c, d, x[12], S11, 0x6b901122);
    assert Regs(d, a, b, c) == Steps(m, Regs(a0, b0, c0, d0), x, 0, 13);
    d := FF(m, d, a, b, c, x[13], S12, 0xfd987193);
    assert Regs(c, d, a, b) == Steps(m, Regs(a0, b0, c0, d0), x, 0, 14);
    c := FF(m, c, d, a, b, x[14], S13, 0xa679438e);
    assert Regs(b, c, d, a) == Steps(m, Regs(a0, b0, c0, d0), x, 0, 15);
    b := FF(m, b, c, d, a, x[15], S14, 0x49b40821);
    assert Regs(a, b, c, d) == Steps(m, Regs(a0, b0, c0, d0), x, 0, 16);
  }

  method Round2<W>(m: WordOps<W>, a0: W, b0: W, c0: W, d0: W, x: seq<W>)
    returns (a: W, b: W, c: W, d: W)
    requires |x| == 16 && Schedule2(m)
    ensures Regs(a, b, c, d) == Steps(m, Regs(a0, b0, c0, d0), x, 16, 16)
  {
    a, b, c, d := a0, b0, c0, d0;
    a := GG(m, a, b, c, d, x[1], S21, 0xf61e2562);
    assert Regs(d, a, b, c) == Steps(m, Regs(a0, b0, c0, d0), x, 16, 1);
    d := GG(m, d, a, b, c, x[6], S22, 0xc040b340);
    assert Regs(c, d, a, b) == Steps(m, Regs(a0, b0, c0, d0), x, 16, 2);
    c := GG(m, c, d, a, b, x[11], S23, 0x265e5a51);
    assert Regs(b, c, d, a) == Steps(m, Regs(a0, b0, c0, d0), x, 16, 3);
    b := GG(m, b, c, d, a, x[0], S24, 0xe9b6c7aa);
    assert Regs(a, b, c, d) == Steps(m, Regs(a0, b0, c0, d0), x, 16, 4);
    a := GG(m, a, b, c, d, x[5], S21, 0xd62f105d);
    assert Regs(d, a, b, c) == Steps(m, Regs(a0, b0, c0, d0), x, 16, 5);
    d := GG(m, d, a, b, c, x[10], S22, 0x2441453);
    assert Regs(c, d, a, b) == Steps(m, Regs(a0, b0, c0, d0), x, 16, 6);
    c := GG(m, c, d, a, b, x[15], S23, 0xd8a1e681);
    assert Regs(b, c, d, a) == Steps(m, Regs(a0, b0, c0, d0), x, 16, 7);
    b := GG(m, b, c, d, a, x[4], S24, 0xe7d3fbc8);
    assert Regs(a, b, c, d) == Steps(m, Regs(a0, b0, c0, d0), x, 16, 8);
    a := GG(m, a, b, c, d, x[9], S21, 0x21e1cde6);
    assert Regs(d, a, b, c) == Steps(m, Regs(a0, b0, c0, d0), x, 16, 9);
    d := GG(m, d, a, b, c, x[14], S22, 0xc33707d6);
    assert Regs(c, d, a, b) == Steps(m, Regs(a0, b0, c0, d0), x, 16, 10);
    c := GG(m, c, d, a, b, x[3], S23, 0xf4d50d87);
    assert Regs(b, c, d, a) == Steps(m, Regs(a0, b0, c0, d0), x, 16, 11);
    b := GG(m, b, c, d, a, x[8], S24, 0x455a14ed);
    assert Regs(a, b, c, d) == Steps(m, Regs(a0, b0, c0, d0), x, 16, 12);
    a := GG(m, a, b, c, d, x[13], S21, 0xa9e3e905);
    assert Regs(d, a, b, c) == Steps(m, Regs(a0, b0, c0, d0), x, 16, 13);
    d := GG(m, d, a, b, c, x[2], S22, 0xfcefa3f8);
    assert Regs(c, d, a, b) == Steps(m, Regs(a0, b0, c0, d0), x, 16, 14);
    c := GG(m, c, d, a, b, x[7], S23, 0x676f02d9);
    assert Regs(b, c, d, a) == Steps(m, Regs(a0, b0, c0, d0), x, 16, 15);
    b := GG(m, b, c, d, a, x[12], S24, 0x8d2a4c8a);
    assert Regs(a, b, c, d) == Steps(m, Regs(a0, b0, c0, d0), x, 16, 16);
  }

  method Round3<W>(m: WordOps<W>, a0: W, b0: W, c0: W, d0: W, x: seq<W>)
    returns (a: W, b: W, c: W, d: W)
    requires |x| == 16 && Schedule3(m)
    ensures Regs(a, b, c, d) == Steps(m, Regs(a0, b0, c0, d0), x, 32, 16)
  {
    a, b, c, d := a0, b0, c0, d0;
    a := HH(m, a, b, c, d, x[5], S31, 0xfffa3942);
    assert Regs(d, a, b, c) == Steps(m, Regs(a0, b0, c0, d0), x, 32, 1);
    d := HH(m, d, a, b, c, x[8], S32, 0x8771f681);
    assert Regs(c, d, a, b) == Steps(m, Regs(a0, b0, c0, d0), x, 32, 2);
    c := HH(m, c, d, a, b, x[11], S33, 0x6d9d6122);
    assert Regs(b, c, d, a) == Steps(m, Regs(a0, b0, c0, d0), x, 32, 3);
    b := HH(m, b, c, d, a, x[14], S34, 0xfde5380c);
    assert Regs(a, b, c, d) == Steps(m, Regs(a0, b0, c0, d0), x, 32, 4);
    a := HH(m, a, b, c, d, x[1], S31, 0xa4beea44);
    assert Regs(d, a, b, c) == Steps(m, Regs(a0, b0, c0, d0), x, 32, 5);
    d := HH(m, d, a, b, c, x[4], S32, 0x4bdecfa9);
    assert Regs(c, d, a, b) == Steps(m, Regs(a0, b0, c0, d0), x, 32, 6);
    c := HH(m, c, d, a, b, x[7], S33, 0xf6bb4b60);
    assert Regs(b, c, d, a) == Steps(m, Regs(a0, b0, c0, d0), x, 32, 7);
    b := HH(m, b, c, d, a, x[10], S34, 0xbebfbc70);
    assert Regs(a, b, c, d) == Steps(m, Regs(a0, b0, c0, d0), x, 32, 8);
    a := HH(m, a, b, c, d, x[13], S31, 0x289b7ec6);
    assert Regs(d, a, b, c) == Steps(m, Regs(a0, b0, c0, d0), x, 32, 9);
    d := HH(m, d, a, b, c, x[0], S32, 0xeaa127fa);
    assert Regs(c, d, a, b) == Steps(m, Regs(a0, b0, c0, d0), x, 32, 10);
    c := HH(m, c, d, a, b, x[3], S33, 0xd4ef3085);
    assert Regs(b, c, d, a) == Steps(m, Regs(a0, b0, c0, d0), x, 32, 11);
    b := HH(m, b, c, d, a, x[6], S34, 0x4881d05);
    assert Regs(a, b, c, d) == Steps(m, Regs(a0, b0, c0, d0), x, 32, 12);
    a := HH(m, a, b, c, d, x[9], S31, 0xd9d4d039);
    assert Regs(d, a, b, c) == Steps(m, Regs(a0, b0, c0, d0), x, 32, 13);
    d := HH(m, d, a, b, c, x[12], S32, 0xe6db99e5);
    assert Regs(c, d, a, b) == Steps(m, Regs(a0, b0, c0, d0), x, 32, 14);
    c := HH(m, c, d, a, b, x[15], S33, 0x1fa27cf8);
    assert Regs(b, c, d, a) == Steps(m, Regs(a0, b0, c0, d0), x, 32, 15);
    b := HH(m, b, c, d, a, x[2], S34, 0xc4ac5665);
    assert Regs(a, b, c, d) == Steps(m, Regs(a0, b0, c0, d0), x, 32, 16);
  }

  method Round4<W>(m: WordOps<W>, a0: W, b0: W, c0: W, d0: W, x: seq<W>)
    returns (a: W, b: W, c: W, d: W)
    requires |x| == 16 && Schedule4(m)
    ensures Regs(a, b, c, d) == Steps(m, Regs(a0, b0, c0, d0), x, 48, 16)
  {
    a, b, c, d := a0, b0, c0, d0;
    a := II(m, a, b, c, d, x[0], S41, 0xf4292244);
    assert Regs(d, a, b, c) == Steps(m, Regs(a0, b0, c0, d0), x, 48, 1);
    d := II(m, d, a, b, c, x[7], S42, 0x432aff97);
    assert Regs(c, d, a, b) == Steps(m, Regs(a0, b0, c0, d0), x, 48, 2);
    c := II(m, c, d, a, b, x[14], S43, 0xab9423a7);
    assert Regs(b, c, d, a) == Steps(m, Regs(a0, b0, c0, d0), x, 48, 3);
    b := II(m, b, c, d, a, x[5], S44, 0xfc93a039);
    assert Regs(a, b, c, d) == Steps(m, Regs(a0, b0, c0, d0), x, 48, 4);
    a := II(m, a, b, c, d, x[12], S41, 0x655b59c3);
    assert Regs(d, a, b, c) == Steps(m, Regs(a0, b0, c0, d0), x, 48, 5);
    d := II(m, d, a, b, c, x[3], S42, 0x8f0ccc92);
    assert Regs(c, d, a, b) == Steps(m, Regs(a0, b0, c0, d0), x, 48, 6);
    c := II(m, c, d, a, b, x[10], S43, 0xffeff47d);
    assert Regs(b, c, d, a) == Steps(m, Regs(a0, b0, c0, d0), x, 48, 7);
    b := II(m, b, c, d, a, x[1], S44, 0x85845dd1);
    assert Regs(a, b, c, d) == Steps(m, Regs(a0, b0, c0, d0), x, 48, 8);
    a := II(m, a, b, c, d, x[8], S41, 0x6fa87e4f);
    assert Regs(d, a, b, c) == Steps(m, Regs(a0, b0, c0, d0), x, 48, 9);
    d := II(m, d, a, b, c, x[15], S42, 0xfe2ce6e0);
    assert Regs(c, d, a, b) == Steps(m, Regs(a0, b0, c0, d0), x, 48, 10);
    c := II(m, c, d, a, b, x[6], S43, 0xa3014314);
    assert Regs(b, c, d, a) == Steps(m, Regs(a0, b0, c0, d0), x, 48, 11);
    b := II(m, b, c, d, a, x[13], S44, 0x4e0811a1);
    assert Regs(a, b, c, d) == Steps(m, Regs(a0, b0, c0, d0), x, 48, 12);
    a := II(m, a, b, c, d, x[4], S41, 0xf7537e82);
    assert Regs(d, a, b, c) == Steps(m, Regs(a0, b0, c0, d0), x, 48, 13);
    d := II(m, d, a, b, c, x[11], S42, 0xbd3af235);
    assert Regs(c, d, a, b) == Steps(m, Regs(a0, b0, c0, d0), x, 48, 14);
    c := II(m, c, d, a, b, x[2], S43, 0x2ad7d2bb);
    assert Regs(b, c, d, a) == Steps(m, Regs(a0, b0, c0, d0), x, 48, 15);
    b := II(m, b, c, d, a, x[9], S44, 0xeb86d391);
    assert Regs(a, b, c, d) == Steps(m, Regs(a0, b0, c0, d0), x, 48, 16);
  }

  // The whole unrolled body, in the order of the original.
  method AllRounds<W>(m: WordOps<W>, start: Regs<W>, x: seq<W>) returns (r: Regs<W>)
    requires |x| == 16 && Schedule1(m) && Schedule2(m) && Schedule3(m) && Schedule4(m)
    ensures r == Steps(m, start, x, 0, 4 * |x|)
  {
    ghost var n := 16;
    var a, b, c, d := Round1(m, start.a, start.b, start.c, start.d, x);
    a, b, c, d := Round2(m, a, b, c, d, x);
    StepsCompose(m, start, x, 0, n, n);
    a, b, c, d := Round3(m, a, b, c, d, x);
    StepsCompose(m, start, x, 0, n + n, n);
    a, b, c, d := Round4(m, a, b, c, d, x);
    StepsCompose(m, start, x, 0, n + n + n, n);
    r := Regs(a, b, c, d);
  }

  lemma MachineEntries0()
    ensures ScheduleEntry(0) == Entry(0, S11, 0xd76aa478)
    ensures ScheduleEntry(1) == Entry(1, S12, 0xe8c7b756)
    ensures ScheduleEntry(2) == Entry(2, S13, 0x242070db)
    ensures ScheduleEntry(3) == Entry(3, S14, 0xc1bdceee)
  {
  }

  lemma MachineEntries4()
    ensures ScheduleEntry(4) == Entry(4, S11, 0xf57c0faf)
    ensures ScheduleEntry(5) == Entry(5, S12, 0x4787c62a)
    ensures ScheduleEntry(6) == Entry(6, S13, 0xa8304613)
    ensures ScheduleEntry(7) == Entry(7, S14, 0xfd469501)
  {
  }

  lemma MachineEntries8()
    ensures ScheduleEntry(8) == Entry(8, S11, 0x698098d8)
    ensures ScheduleEntry(9) == Entry(9, S12, 0x8b44f7af)
    ensures ScheduleEntry(10) == Entry(10, S13, 0xffff5bb1)
    ensures ScheduleEntry(11) == Entry(11, S14, 0x895cd7be)
  {
  }

  lemma MachineEntries12()
    ensures ScheduleEntry(12) == Entry(12, S11, 0x6b901122)
    ensures ScheduleEntry(13) == Entry(13, S12, 0xfd987193)
    ensures ScheduleEntry(14) == Entry(14, S13, 0xa679438e)
    ensures ScheduleEntry(15) == Entry(15, S14, 0x49b40821)
  {
  }

  lemma MachineEntries16()
    ensures ScheduleEntry(16) == Entry(1, S21, 0xf61e2562)
    ensures ScheduleEntry(17) == Entry(6, S22, 0xc040b340)
    ensures ScheduleEntry(18) == Entry(11, S23, 0x265e5a51)
    ensures ScheduleEntry(19) == Entry(0, S24, 0xe9b6c7aa)
  {
  }

  lemma MachineEntries20()
    ensures ScheduleEntry(20) == Entry(5, S21, 0xd62f105d)
    ensures ScheduleEntry(21) == Entry(10, S22, 0x2441453)
    ensures ScheduleEntry(22) == Entry(15, S23, 0xd8a1e681)
    ensures ScheduleEntry(23) == Entry(4, S24, 0xe7d3fbc8)
  {
  }

  lemma MachineEntries24()
    ensures ScheduleEntry(24) == Entry(9, S21, 0x21e1cde6)
    ensures ScheduleEntry(25) == Entry(14, S22, 0xc33707d6)
    ensures ScheduleEntry(26) == Entry(3, S23, 0xf4d50d87)
    ensures ScheduleEntry(27) == Entry(8, S24, 0x455a14ed)
  {
  }

  lemma MachineEntries28()
    ensures ScheduleEntry(28) == Entry(13, S21, 0xa9e3e905)
    ensures ScheduleEntry(29) == Entry(2, S22, 0xfcefa3f8)
    ensures ScheduleEntry(30) == Entry(7, S23, 0x676f02d9)
    ensures ScheduleEntry(31) == Entry(12, S24, 0x8d2a4c8a)
  {
  }

  lemma MachineEntries32()
    ensures ScheduleEntry(32) == Entry(5, S31, 0xfffa3942)
    ensures ScheduleEntry(33) == Entry(8, S32, 0x8771f681)
    ensures ScheduleEntry(34) == Entry(11, S33, 0x6d9d6122)
    ensures ScheduleEntry(35) == Entry(14, S34, 0xfde5380c)
  {
  }

  lemma MachineEntries36()
    ensures ScheduleEntry(36) == Entry(1, S31, 0xa4beea44)
    ensures ScheduleEntry(37) == Entry(4, S32, 0x4bdecfa9)
    ensures ScheduleEntry(38) == Entry(7, S33, 0xf6bb4b60)
    ensures ScheduleEntry(39) == Entry(10, S34, 0xbebfbc70)
  {
  }

  lemma MachineEntries40()
    ensures ScheduleEntry(40) == Entry(13, S31, 0x289b7ec6)
    ensures ScheduleEntry(41) == Entry(0, S32, 0xeaa127fa)
    ensures ScheduleEntry(42) == Entry(3, S33, 0xd4ef3085)
    ensures ScheduleEntry(43) == Entry(6, S34, 0x4881d05)
  {
  }

  lemma MachineEntries44()
    ensures ScheduleEntry(44) == Entry(9, S31, 0xd9d4d039)
    ensures ScheduleEntry(45) == Entry(12, S32, 0xe6db99e5)
    ensures ScheduleEntry(46) == Entry(15, S33, 0x1fa27cf8)
    ensures ScheduleEntry(47) == Entry(2, S34, 0xc4ac5665)
  {
  }

  lemma MachineEntries48()
    ensures ScheduleEntry(48) == Entry(0, S41, 0xf4292244)
    ensures ScheduleEntry(49) == Entry(7, S42, 0x432aff97)
    ensures ScheduleEntry(50) == Entry(14, S43, 0xab9423a7)
    ensures ScheduleEntry(51) == Entry(5, S44, 0xfc93a039)
  {
  }

  lemma MachineEntries52()
    ensures ScheduleEntry(52) == Entry(12, S41, 0x655b59c3)
    ensures ScheduleEntry(53) == Entry(3, S42, 0x8f0ccc92)
    ensures ScheduleEntry(54) == Entry(10, S43, 0xffeff47d)
    ensures ScheduleEntry(55) == Entry(1, S44, 0x85845dd1)
  {
  }

  lemma MachineEntries56()
    ensures ScheduleEntry(56) == Entry(8, S41, 0x6fa87e4f)
    ensures ScheduleEntry(57) == Entry(15, S42, 0xfe2ce6e0)
    ensures ScheduleEntry(58) == Entry(6, S43, 0xa3014314)
    ensures ScheduleEntry(59) == Entry(13, S44, 0x4e0811a1)
  {
  }

  lemma MachineEntries60()
    ensures ScheduleEntry(60) == Entry(4, S41, 0xf7537e82)
    ensures ScheduleEntry(61) == Entry(11, S42, 0xbd3af235)
    ensures ScheduleEntry(62) == Entry(2, S43, 0x2ad7d2bb)
    ensures ScheduleEntry(63) == Entry(9, S44, 0xeb86d391)
  {
  }

  // The operands written out in the 64 calls are the ones the standard's formulas give.
  lemma MachineSchedule()
    ensures Schedule1(MACHINE) && Schedule2(MACHINE) && Schedule3(MACHINE) && Schedule4(MACHINE)
  {
    MachineEntries0();
    MachineEntries4();
    MachineEntries8();
    MachineEntries12();
    MachineEntries16();
    MachineEntries20();
    MachineEntries24();
    MachineEntries28();
    MachineEntries32();
    MachineEntries36();
    MachineEntries40();
    MachineEntries44();
    MachineEntries48();
    MachineEntries52();
    MachineEntries56();
    MachineEntries60();
  }

  method MachineRounds(start: Regs<bv32>, x: seq<bv32>) returns (r: Regs<bv32>)
    requires |x| == 16
    ensures r == Steps(MACHINE, start, x, 0, 4 * |x|)
  {
    MachineSchedule();
    r := AllRounds(MACHINE, start, x);
  }
}
