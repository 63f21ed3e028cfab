/** What the word operations of MD5 do to single bits, and where its first registers and its counter come from. */
module Md5Words {
  import opened Bytes
  import opened Md5Rfc

  // Bit k of a word, counted from the low end.
  predicate Bit(x: bv32, k: bv5) { (x >> k) & 1 == 1 }

  lemma FWhereSet(x: bv32, y: bv32, z: bv32, k: bv5)
    requires Bit(x, k)
    ensures Bit(F(x, y, z), k) <==> Bit(y, k)
  {
  }

  lemma FWhereClear(x: bv32, y: bv32, z: bv32, k: bv5)
    requires !Bit(x, k)
    ensures Bit(F(x, y, z), k) <==> Bit(z, k)
  {
  }

  /** F takes each bit of y where x is set, and of z elsewhere. */
  lemma FChooses(x: bv32, y: bv32, z: bv32, k: bv5)
    ensures Bit(F(x, y, z), k) <==> if Bit(x, k) then Bit(y, k) else Bit(z, k)
  {
    hide Bit, F;
    if Bit(x, k) {
      FWhereSet(x, y, z, k);
    } else {
      FWhereClear(x, y, z, k);
    }
  }

  lemma GWhereSet(x: bv32, y: bv32, z: bv32, k: bv5)
    requires Bit(z, k)
    ensures Bit(G(x, y, z), k) <==> Bit(x, k)
  {
  }

  lemma GWhereClear(x: bv32, y: bv32, z: bv32, k: bv5)
    requires !Bit(z, k)
    ensures Bit(G(x, y, z), k) <==> Bit(y, k)
  {
  }

  /** G takes each bit of x where z is set, and of y elsewhere. */
  lemma GChooses(x: bv32, y: bv32, z: bv32, k: bv5)
    ensures Bit(G(x, y, z), k) <==> if Bit(z, k) then Bit(x, k) else Bit(y, k)
  {
    hide Bit, G;
    if Bit(z, k) {
      GWhereSet(x, y, z, k);
    } else {
      GWhereClear(x, y, z, k);
    }
  }

  lemma XorDiffers(x: bv32, y: bv32, k: bv5)
    ensures Bit(x ^ y, k) <==> Bit(x, k) != Bit(y, k)
  {
  }

  /** H is the parity of its three words. */
  lemma HIsParity(x: bv32, y: bv32, z: bv32, k: bv5)
    ensures Bit(H(x, y, z), k) <==> ((Bit(x, k) != Bit(y, k)) != Bit(z, k))
  {
    hide Bit;
    XorDiffers(x, y, k);
    XorDiffers(x ^ y, z, k);
  }

  lemma IWhereSet(x: bv32, y: bv32, z: bv32, k: bv5)
    requires Bit(x, k)
    ensures Bit(I(x, y, z), k) <==> !Bit(y, k)
  {
  }

  lemma IWhereClear(x: bv32, y: bv32, z: bv32, k: bv5)
    requires !Bit(x, k)
    ensures Bit(I(x, y, z), k) <==> Bit(y, k) == Bit(z, k)
  {
  }

  /** I is set where y differs from "x or not z". */
  lemma IDiffers(x: bv32, y: bv32, z: bv32, k: bv5)
    ensures Bit(I(x, y, z), k) <==> (Bit(y, k) != (Bit(x, k) || !Bit(z, k)))
  {
    hide Bit, I;
    if Bit(x, k) {
      IWhereSet(x, y, z, k);
    } else {
      IWhereClear(x, y, z, k);
    }
  }

  lemma RotatesBelow8(x: bv32, s: bv5, k: bv5)
    requires s < 8
    ensures Bit(RotateLeft(x, s), k + s) <==> Bit(x, k)
  {
  }

  lemma RotatesBelow16(x: bv32, s: bv5, k: bv5)
    requires 8 <= s < 16
    ensures Bit(RotateLeft(x, s), k + s) <==> Bit(x, k)
  {
  }

  lemma RotatesBelow24(x: bv32, s: bv5, k: bv5)
    requires 16 <= s < 24
    ensures Bit(RotateLeft(x, s), k + s) <==> Bit(x, k)
  {
  }

  lemma RotatesBelow32(x: bv32, s: bv5, k: bv5)
    requires 24 <= s
    ensures Bit(RotateLeft(x, s), k + s) <==> Bit(x, k)
  {
  }

  /** Rotating by s moves bit k to bit k + s modulo 32, which is what five bits hold of the sum. */
  lemma RotatesLeft(x: bv32, s: bv5, k: bv5)
    ensures Bit(RotateLeft(x, s), k + s) <==> Bit(x, k)
  {
    hide Bit, RotateLeft;
    if s < 8 {
      RotatesBelow8(x, s, k);
    } else if s < 16 {
      RotatesBelow16(x, s, k);
    } else if s < 24 {
      RotatesBelow24(x, s, k);
    } else {
      RotatesBelow32(x, s, k);
    }
  }

  /** The first registers are the bytes 01 23 .. ef fe dc .. 10. */
  lemma InitialBytes()
    ensures RegsBytes(INITIAL) == [0x01, 0x23, 0x45, 0x67, 0x89, 0xab, 0xcd, 0xef,
                                   0xfe, 0xdc, 0xba, 0x98, 0x76, 0x54, 0x32, 0x10]
  {
  }

  /** The two words of the counter are the bit length modulo 2^64. */
  lemma CounterMeans(n: nat)
    ensures LowWord(n) + 0x1_0000_0000 * HighWord(n) == 8 * n % 0x1_0000_0000_0000_0000
  {
    var low, high := 8 * n % 0x1_0000_0000, 8 * n / 0x1_0000_0000;
    var rest, top := high % 0x1_0000_0000, high / 0x1_0000_0000;
    assert 8 * n == low + 0x1_0000_0000 * rest + 0x1_0000_0000_0000_0000 * top;
  }
}
