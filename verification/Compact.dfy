// The compact encoding of 256-bit numbers: a size in bytes, a sign and a 23-bit mantissa.
module Compact {
  import opened Bits
  import opened Limbs
  import opened ArithUint256
  import opened ArithShift
  import opened ArithDiv

  // ----- what a compact number stands for

  function Mantissa(c: Limb): nat { c % 0x80_0000 }
  function Size(c: Limb): nat { c / 0x100_0000 }
  predicate SignBit(c: Limb) { (c / 0x80_0000) % 2 == 1 }

  // m * 256^(n-3), rounded down
  ghost function Scaled(m: nat, n: nat): nat {
    if n <= 3 then DivLess(m, Pow2(8 * (3 - n))); m / Pow2(8 * (3 - n))
    else MulNonneg(m, Pow2(8 * (n - 3))); m * Pow2(8 * (n - 3))
  }

  ghost function Decoded(c: Limb): nat {
    Scaled(Mantissa(c), Size(c))
  }

  // ----- how a number is encoded

  // The least number of bytes that leaves the top bit clear.
  function CompactSize(v: nat): nat {
    if v == 0 then 0 else BitLen(v) / 8 + 1
  }

  ghost function CompactMantissa(v: nat): nat {
    var n := CompactSize(v);
    if n <= 3 then MulNonneg(v, Pow2(8 * (3 - n))); v * Pow2(8 * (3 - n))
    else DivLess(v, Pow2(8 * (n - 3))); v / Pow2(8 * (n - 3))
  }

  lemma SizeBounds(v: nat)
    requires v > 0
    ensures var n := CompactSize(v); n > 0 && v < Pow2(8 * n - 1) && (n > 1 ==> Pow2(8 * n - 9) <= v)
  {
    hide Pow2, BitLen;
    BitLenBounds(v);
    var b, n := BitLen(v), CompactSize(v);
    Pow2Mono(b, 8 * n - 1);
    if n > 1 {
      Pow2Mono(8 * n - 9, b - 1);
    }
  }

  lemma SizeUnique(v: nat, n: nat)
    requires n > 0 && v > 0 && v < Pow2(8 * n - 1) && (n > 1 ==> Pow2(8 * n - 9) <= v)
    ensures CompactSize(v) == n
  {
    hide Pow2, CompactSize;
    SizeBounds(v);
    var m := CompactSize(v);
    if m < n {
      Pow2Mono(8 * m - 1, 8 * n - 9);
    } else if n < m {
      Pow2Mono(8 * n - 1, 8 * m - 9);
    }
  }

  // Larger numbers do not take fewer bytes.
  lemma SizeMonotone(u: nat, v: nat)
    requires u <= v
    ensures CompactSize(u) <= CompactSize(v)
  {
    if u > 0 {
      hide Pow2, CompactSize;
      SizeBounds(u);
      SizeBounds(v);
      var m, n := CompactSize(u), CompactSize(v);
      if n < m {
        Pow2Mono(8 * n - 1, 8 * m - 9);
      }
    }
  }

  lemma QuotientBounds(v: nat, p: nat, lo: nat, hi: nat)
    requires p > 0 && lo * p <= v < hi * p
    ensures lo <= v / p < hi
  {
    var q, r := v / p, v % p;
    assert v == q * p + r;
    if q < lo {
      MulMono(q + 1, lo, p);
      MulPlus(q, 1, p);
    }
    if hi <= q {
      MulMono(hi, q, p);
    }
  }

  // The mantissa fits in 23 bits, and no leading byte of it is wasted.
  lemma MantissaBounds(v: nat)
    ensures CompactMantissa(v) < 0x80_0000
    ensures v > 0 ==> CompactMantissa(v) >= 0x8000
  {
    hide Pow2, CompactSize;
    Pow2Known();
    if v > 0 {
      SizeBounds(v);
      var n := CompactSize(v);
      if n == 3 {
      } else if n == 2 {
      } else if n == 1 {
      } else {
        Pow2Add(23, 8 * (n - 3));
        Pow2Add(15, 8 * (n - 3));
        assert 23 + 8 * (n - 3) == 8 * n - 1 && 15 + 8 * (n - 3) == 8 * n - 9;
        QuotientBounds(v, Pow2(8 * (n - 3)), 0x8000, 0x80_0000);
      }
    } else {
      SizeZero();
    }
  }

  lemma SizeZero()
    ensures CompactSize(0) == 0
  {
  }

  lemma Pow2Known()
    ensures Pow2(0) == 1 && Pow2(7) == 0x80 && Pow2(8) == 0x100 && Pow2(15) == 0x8000 && Pow2(16) == 0x1_0000
    ensures Pow2(23) == 0x80_0000 && Pow2(24) == 0x100_0000
  {
    Pow2Of32();
    assert Pow2(8) == 2 * Pow2(7);
    assert Pow2(16) == 2 * Pow2(15);
    assert Pow2(24) == 2 * Pow2(23);
  }

  lemma SizeOf256(v: nat)
    requires v < Modulus()
    ensures CompactSize(v) <= 33
  {
    hide BitLen;
    WithinWidth(v);
  }

  // GetCompact as a function of the number.
  ghost function Encoded(v: nat, fNegative: bool): Limb
    requires v < Modulus()
  {
    MantissaBounds(v);
    SizeOf256(v);
    var m := CompactMantissa(v);
    m + CompactSize(v) * 0x100_0000 + if fNegative && m != 0 then 0x80_0000 else 0
  }

  lemma EncodedFields(v: nat, fNegative: bool)
    requires v < Modulus()
    ensures var c := Encoded(v, fNegative);
            && Mantissa(c) == CompactMantissa(v) && Size(c) == CompactSize(v)
            && (SignBit(c) <==> fNegative && v != 0)
  {
    hide CompactMantissa, CompactSize, Modulus;
    MantissaBounds(v);
    SizeOf256(v);
    MantissaZero(v);
    Fields(CompactMantissa(v), CompactSize(v), if fNegative && v != 0 then 1 else 0);
  }

  lemma Fields(m: nat, n: nat, s: nat)
    requires m < 0x80_0000 && s <= 1
    ensures var c := m + n * 0x100_0000 + s * 0x80_0000;
            c % 0x80_0000 == m && c / 0x100_0000 == n && (c / 0x80_0000) % 2 == s
  {
    var c := m + n * 0x100_0000 + s * 0x80_0000;
    DivUnique(c, 0x80_0000, 2 * n + s, m);
    DivUnique(c, 0x100_0000, n, m + s * 0x80_0000);
  }

  lemma MantissaZero(v: nat)
    ensures CompactMantissa(v) == 0 <==> v == 0
  {
    MantissaBounds(v);
    if v == 0 {
      assert CompactMantissa(0) == 0 * Pow2(24);
    }
  }

  // ----- rounding

  // The unit in which a number of this size is encoded.
  ghost function Step(v: nat): nat {
    if CompactSize(v) <= 3 then 1 else Pow2(8 * (CompactSize(v) - 3))
  }

  // What is left of v after encoding and decoding.
  ghost function Rounded(v: nat): nat {
    Scaled(CompactMantissa(v), CompactSize(v))
  }

  // Encoding rounds down to a multiple of the step, and the step is at most a 32768th of v.
  lemma RoundedIs(v: nat)
    ensures Step(v) > 0 && Rounded(v) == v - v % Step(v) && Rounded(v) == (v / Step(v)) * Step(v)
    ensures v - Rounded(v) < Step(v)
    ensures CompactSize(v) > 3 ==> 0x8000 * Step(v) <= v
  {
    hide Pow2, CompactSize;
    var n := CompactSize(v);
    if n <= 3 {
      var p := Pow2(8 * (3 - n));
      MulNonneg(v, p);
      DivUnique(v * p, p, v, 0);
    } else {
      var p := Pow2(8 * (n - 3));
      SizeZero();
      SizeBounds(v);
      Pow2Known();
      Pow2Add(15, 8 * (n - 3));
      assert v == (v / p) * p + v % p;
    }
  }

  lemma FloorMono(u: nat, v: nat, p: nat)
    requires p > 0 && u <= v
    ensures (u / p) * p <= (v / p) * p
  {
    LessByQuotient(p, v / p, v % p, u / p, u % p);
    assert v == v / p * p + v % p && u == u / p * p + u % p;
    MulMono(u / p, v / p, p);
  }

  // Rounding is monotone.
  lemma RoundedMonotone(u: nat, v: nat)
    requires u <= v
    ensures Rounded(u) <= Rounded(v)
  {
    hide Pow2, CompactSize, Rounded;
    RoundedIs(u);
    RoundedIs(v);
    SizeMonotone(u, v);
    var m, n := CompactSize(u), CompactSize(v);
    if m == n || n <= 3 {
      FloorMono(u, v, Step(v));
    } else {
      // v has a byte more: the leading bits of v alone are worth more than u
      SizeZero();
      SizeBounds(v);
      if u > 0 {
        SizeBounds(u);
        Pow2Mono(8 * m - 1, 8 * n - 9);
      }
      Pow2Add(15, 8 * (n - 3));
      assert 15 + 8 * (n - 3) == 8 * n - 9;
      Pow2Known();
      FloorMono(Pow2(8 * n - 9), v, Step(v));
      DivUnique(Pow2(8 * n - 9), Step(v), 0x8000, 0);
    }
  }

  // A number that fits the encoding exactly is kept: a multiple of 256^(n-3) below 2^23 of them.
  lemma ExactKept(v: nat, m: nat, n: nat)
    requires n > 3 && v == m * Pow2(8 * (n - 3)) && m < 0x80_0000
    ensures Rounded(v) == v && CompactSize(v) <= n
  {
    hide Pow2, CompactSize, Rounded;
    RoundedIs(v);
    SizeZero();
    if v > 0 {
      SizeBounds(v);
      var k := CompactSize(v);
      Pow2Known();
      Pow2Add(23, 8 * (n - 3));
      MulMono(m + 1, 0x80_0000, Pow2(8 * (n - 3)));
      MulPlus(m, 1, Pow2(8 * (n - 3)));
      if n < k {
        Pow2Mono(8 * n - 1, 8 * k - 9);
      } else if k > 3 {
        Pow2Add(8 * (n - k), 8 * (k - 3));
        assert 8 * (n - k) + 8 * (k - 3) == 8 * (n - 3);
        MulAssoc(m, Pow2(8 * (n - k)), Pow2(8 * (k - 3)));
        MulNonneg(m, Pow2(8 * (n - k)));
        DivUnique(v, Step(v), m * Pow2(8 * (n - k)), 0);
      } else {
        DivUnique(v, 1, v, 0);
      }
    }
  }

  // Every number a compact number stands for is kept by encoding it again.
  lemma DecodedKept(c: Limb)
    ensures Rounded(Decoded(c)) == Decoded(c)
  {
    var v, n := Decoded(c), Size(c);
    if n > 3 {
      ExactKept(v, Mantissa(c), n);
    } else {
      hide Pow2, CompactSize, Rounded;
      DivLess(Mantissa(c), Pow2(8 * (3 - n)));
      RoundedIs(v);
      SmallSize(v);
      if CompactSize(v) <= 3 {
        DivUnique(v, 1, v, 0);
      }
    }
  }

  lemma SmallSize(v: nat)
    requires v < 0x80_0000
    ensures CompactSize(v) <= 3
  {
    hide Pow2, CompactSize;
    SizeZero();
    if v > 0 {
      SizeBounds(v);
      Pow2Known();
      if CompactSize(v) > 3 {
        Pow2Mono(23, 8 * CompactSize(v) - 9);
      }
    }
  }

  // ----- the round trip

  // Rounding does not change the encoding.
  lemma RoundedSame(v: nat)
    ensures CompactSize(Rounded(v)) == CompactSize(v) && CompactMantissa(Rounded(v)) == CompactMantissa(v)
  {
    hide Pow2, CompactSize, Rounded;
    RoundedIs(v);
    if CompactSize(v) <= 3 {
      DivUnique(v, 1, v, 0);
    } else {
      var n, p := CompactSize(v), Step(v);
      SizeZero();
      SizeBounds(v);
      Pow2Known();
      Pow2Add(15, 8 * (n - 3));
      assert 15 + 8 * (n - 3) == 8 * n - 9;
      FloorMono(0x8000 * p, v, p);
      DivUnique(0x8000 * p, p, 0x8000, 0);
      SizeUnique(Rounded(v), n);
      DivUnique(Rounded(v), p, v / p, 0);
    }
  }

  // Encoding what an encoded number stands for gives the encoded number again, and decoding it
  // raises neither flag wrongly.
  lemma EncodeDecode(v: nat, fNegative: bool)
    requires v < Modulus()
    ensures var c := Encoded(v, fNegative);
            && Decoded(c) <= v < Modulus() && (SignBit(c) && Decoded(c) != 0 <==> fNegative && v != 0)
            && Encoded(Decoded(c), SignBit(c)) == c
  {
    var c := Encoded(v, fNegative);
    EncodedFields(v, fNegative);
    RoundedIs(v);
    RoundedSame(v);
    assert Decoded(c) == Rounded(v);
    MantissaZero(v);
    MantissaZero(Rounded(v));
    hide CompactMantissa, CompactSize, Rounded, Pow2, Modulus, Mantissa, Size, SignBit, Decoded;
  }

  // The compact numbers that come back unchanged: the mantissa starts with a full byte (or
  // the bit that would be the sign), and holds no bits below the units.
  ghost predicate Canonical(c: Limb) {
    if Mantissa(c) == 0 then c == 0
    else
      && Size(c) >= 1 && Mantissa(c) >= 0x8000
      && (Size(c) < 3 ==> Mantissa(c) % Pow2(8 * (3 - Size(c))) == 0)
  }

  lemma CanonicalFields(c: Limb)
    requires Canonical(c) && Mantissa(c) > 0
    ensures CompactSize(Decoded(c)) == Size(c) && CompactMantissa(Decoded(c)) == Mantissa(c)
  {
    hide Pow2, CompactSize, Mantissa, Size;
    var m, n, v := Mantissa(c), Size(c), Decoded(c);
    assert m < 0x80_0000 by { MantissaOf(c); }
    Pow2Known();
    if n > 3 {
      var p := Pow2(8 * (n - 3));
      Pow2Add(23, 8 * (n - 3));
      Pow2Add(15, 8 * (n - 3));
      assert 23 + 8 * (n - 3) == 8 * n - 1 && 15 + 8 * (n - 3) == 8 * n - 9;
      MulMono(m + 1, 0x80_0000, p);
      MulPlus(m, 1, p);
      MulMono(0x8000, m, p);
      SizeUnique(v, n);
      DivUnique(v, p, m, 0);
    } else {
      var p := Pow2(8 * (3 - n));
      assert m == v * p;
      SizeUnique(v, n);
    }
  }

  lemma MantissaOf(c: Limb)
    ensures Mantissa(c) < 0x80_0000
  {
  }

  lemma FieldsOf(c: Limb)
    ensures c == Mantissa(c) + Size(c) * 0x100_0000 + if SignBit(c) then 0x80_0000 else 0
  {
  }

  // Decoding and encoding again is the identity exactly on the canonical numbers.
  lemma CanonicalIff(c: Limb)
    requires Decoded(c) < Modulus()
    ensures Encoded(Decoded(c), SignBit(c)) == c <==> Canonical(c)
  {
    hide Pow2, CompactSize, Mantissa, Size, SignBit, Modulus, CompactMantissa, Decoded;
    var v := Decoded(c);
    FieldsOf(c);
    MantissaBounds(v);
    MantissaZero(v);
    EncodedFields(v, SignBit(c));
    SizeZero();
    if Canonical(c) {
      if Mantissa(c) > 0 {
        CanonicalFields(c);
      } else {
        ZeroDecoded(c);
      }
    } else if Encoded(v, SignBit(c)) == c && v != 0 {
      SizePositive(v);
      MantissaDivides(v);
    }
  }

  lemma ZeroDecoded(c: Limb)
    requires c == 0
    ensures Decoded(c) == 0 && !SignBit(c) && CompactSize(0) == 0
  {
  }

  lemma SizePositive(v: nat)
    requires v > 0
    ensures CompactSize(v) >= 1
  {
  }

  lemma MantissaDivides(v: nat)
    ensures CompactSize(v) < 3 ==> CompactMantissa(v) % Pow2(8 * (3 - CompactSize(v))) == 0
  {
    hide Pow2, CompactSize;
    if CompactSize(v) < 3 {
      DivUnique(CompactMantissa(v), Pow2(8 * (3 - CompactSize(v))), v, 0);
    }
  }
}
