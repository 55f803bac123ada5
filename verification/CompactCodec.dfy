// SetCompact and GetCompact on limbs.
module CompactCodec {
  import opened Bits
  import opened Limbs
  import opened ArithUint256
  import opened ArithShift
  import opened ArithDiv
  import opened Compact

  // *this = b
  method SetLow(pn: array<Limb>, b: nat)
    requires Wide(pn) && b <= MAX64
    modifies pn
    ensures Value(pn) == b
  {
    SetZero(pn);
    pn[0] := b % BASE;
    pn[1] := b / BASE;
    LowLimbs(pn[..]);
    ValZeros(pn[2..]);
  }

  lemma ScaledOverflows(m: nat, k: nat)
    requires k <= 256
    ensures m * Pow2(k) >= Modulus() <==> m >= Pow2(256 - k)
  {
    hide Pow2;
    Pow2Add(256 - k, k);
    if m >= Pow2(256 - k) {
      MulMono(Pow2(256 - k), m, Pow2(k));
    } else {
      MulMono(m + 1, Pow2(256 - k), Pow2(k));
      MulPlus(m, 1, Pow2(k));
    }
  }

  // The test SetCompact makes is exact: the number needs more than 256 bits.
  lemma OverflowIff(c: Limb)
    ensures var m, n := Mantissa(c), Size(c);
            (m != 0 && (n > 34 || (m > 0xff && n > 33) || (m > 0xffff && n > 32))) <==> Decoded(c) >= Modulus()
  {
    var m, n := Mantissa(c), Size(c);
    hide Pow2;
    Pow2Known();
    if n <= 3 {
      DivLess(m, Pow2(8 * (3 - n)));
      Pow2Mono(23, 256);
    } else if n > 34 {
      Pow2Mono(256, 8 * (n - 3));
      if m != 0 {
        MulMono(1, m, Pow2(8 * (n - 3)));
      }
    } else {
      ScaledOverflows(m, 8 * (n - 3));
      if n < 33 {
        Pow2Mono(24, 256 - 8 * (n - 3));
      }
    }
  }

  lemma DecodedZero(c: Limb)
    ensures Size(c) > 3 ==> (Decoded(c) == 0 <==> Mantissa(c) == 0)
  {
    if Size(c) > 3 && Mantissa(c) > 0 {
      MulMono(1, Mantissa(c), Pow2(8 * (Size(c) - 3)));
    }
  }

  method SetCompact(pn: array<Limb>, nCompact: Limb) returns (fNegative: bool, fOverflow: bool)
    requires Wide(pn)
    modifies pn
    ensures Value(pn) == Decoded(nCompact) % Modulus()
    ensures fOverflow <==> Decoded(nCompact) >= Modulus()
    ensures fNegative <==> Decoded(nCompact) != 0 && SignBit(nCompact)
  {
    hide Pow2, Val, Modulus;
    OverflowIff(nCompact);
    DecodedZero(nCompact);
    var nSize: nat := nCompact / 0x100_0000;
    var nWord: nat := nCompact % 0x80_0000;
    if nSize <= 3 {
      DivLess(nWord, Pow2(8 * (3 - nSize)));
      nWord := nWord / Pow2(8 * (3 - nSize));
      SetLow(pn, nWord);
      ValueBound(pn);
      DivUnique(nWord, Modulus(), 0, nWord);
    } else {
      SetLow(pn, nWord);
      ShiftLeft(pn, 8 * (nSize - 3));
    }
    fNegative := nWord != 0 && (nCompact / 0x80_0000) % 2 == 1;
    fOverflow := nWord != 0 && (nSize > 34 || (nWord > 0xff && nSize > 33) || (nWord > 0xffff && nSize > 32));
  }

  // x | 2^i, when the bit is clear
  lemma {:induction false} OrBit(x: nat, i: nat)
    requires (x / Pow2(i)) % 2 == 0
    ensures Or(x, Pow2(i)) == x + Pow2(i)
    decreases i
  {
    if i > 0 && x > 0 {
      DivPow2Step(x, i);
      OrBit(x / 2, i - 1);
    }
  }

  // (bits() + 7) / 8, and the top 24 bits of the number when it takes that many bytes.
  lemma FirstSize(v: nat)
    ensures var n := (BitLen(v) + 7) / 8;
            && (v > 0 ==> n > 0 && Pow2(8 * n - 8) <= v) && v < Pow2(8 * n)
            && CompactSize(v) == (if v > 0 && BitLen(v) % 8 == 0 then n + 1 else n)
            && (v > 0 ==> (BitLen(v) % 8 == 0 <==> Pow2(8 * n - 1) <= v))
  {
    hide Pow2, BitLen;
    LenZero(v);
    BitLenBounds(v);
    var b, n := BitLen(v), (BitLen(v) + 7) / 8;
    Pow2Mono(b, 8 * n);
    if v > 0 {
      Pow2Mono(8 * n - 8, b - 1);
      if b % 8 == 0 {
        assert b == 8 * n;
      } else {
        Pow2Mono(b, 8 * n - 1);
      }
    }
  }

  // The first mantissa GetCompact computes, before making room for the sign.
  ghost function FirstMantissa(v: nat): nat {
    var n := (BitLen(v) + 7) / 8;
    if n <= 3 then MulNonneg(v, Pow2(8 * (3 - n))); v * Pow2(8 * (3 - n))
    else DivLess(v, Pow2(8 * (n - 3))); v / Pow2(8 * (n - 3))
  }

  lemma FirstMantissaBounds(v: nat)
    ensures FirstMantissa(v) < 0x100_0000
    ensures FirstMantissa(v) >= 0x80_0000 <==> v > 0 && BitLen(v) % 8 == 0
  {
    hide Pow2, BitLen;
    FirstSize(v);
    LenZero(v);
    Pow2Known();
    var n := (BitLen(v) + 7) / 8;
    if n <= 3 {
      var p := Pow2(8 * (3 - n));
      Pow2Add(8 * n, 8 * (3 - n));
      MulMono(v + 1, Pow2(8 * n), p);
      MulPlus(v, 1, p);
      if v > 0 {
        Pow2Add(8 * n - 1, 8 * (3 - n));
        TopBit(v, Pow2(8 * n - 1), p);
      }
    } else {
      var p := Pow2(8 * (n - 3));
      Pow2Add(24, 8 * (n - 3));
      Pow2Add(23, 8 * (n - 3));
      assert 24 + 8 * (n - 3) == 8 * n && 23 + 8 * (n - 3) == 8 * n - 1;
      if Pow2(8 * n - 1) <= v {
        QuotientBounds(v, p, 0x80_0000, 0x100_0000);
      } else {
        QuotientBounds(v, p, 0, 0x80_0000);
      }
    }
  }

  lemma TopBit(v: nat, t: nat, p: nat)
    requires p > 0
    ensures v * p >= t * p <==> v >= t
  {
    if v < t {
      MulMono(v + 1, t, p);
      MulPlus(v, 1, p);
    } else {
      MulMono(t, v, p);
    }
  }

  // Making room for the sign gives the mantissa of the encoding.
  lemma MadeRoom(v: nat)
    ensures FirstMantissa(v) >= 0x80_0000 ==>
              CompactSize(v) == (BitLen(v) + 7) / 8 + 1 && CompactMantissa(v) == FirstMantissa(v) / 0x100
    ensures FirstMantissa(v) < 0x80_0000 ==>
              CompactSize(v) == (BitLen(v) + 7) / 8 && CompactMantissa(v) == FirstMantissa(v)
  {
    hide Pow2, BitLen, CompactSize;
    FirstSize(v);
    FirstMantissaBounds(v);
    Pow2Known();
    var n := (BitLen(v) + 7) / 8;
    if FirstMantissa(v) >= 0x80_0000 {
      if n < 3 {
        var p := Pow2(8 * (2 - n));
        Pow2Add(8 * (2 - n), 8);
        MulAssoc(v, p, 0x100);
        DivUnique(v * (p * 0x100), 0x100, v * p, 0);
      } else if n == 3 {
        assert FirstMantissa(v) == v * Pow2(0);
      } else {
        var p := Pow2(8 * (n - 3));
        Pow2Add(8 * (n - 3), 8);
        DivTwice(v, p, 0x100);
      }
    }
  }

  lemma DivTwice(v: nat, p: nat, q: nat)
    requires p > 0 && q > 0
    ensures p * q > 0 && v / (p * q) == (v / p) / q
  {
    var x, r := v / p, v % p;
    var y, t := x / q, x % q;
    assert v == x * p + r && x == y * q + t;
    MulPlus(y * q, t, p);
    MulAssoc(y, q, p);
    MulNonneg(t, p);
    MulMono(t + 1, q, p);
    MulPlus(t, 1, p);
    DivUnique(v, q * p, y, t * p + r);
  }

  method GetCompact(pn: array<Limb>, fNegative: bool) returns (nCompact: Limb)
    requires Wide(pn)
    ensures Value(pn) < Modulus() && nCompact == Encoded(Value(pn), fNegative)
  {
    hide Pow2, Val, Modulus, BitLen, CompactSize, CompactMantissa, Or, FirstMantissa;
    ghost var v := Value(pn);
    ValueBound(pn);
    FirstMantissaBounds(v);
    MadeRoom(v);
    MantissaBounds(v);
    SizeOf256(v);
    var bits := NumBits(pn);
    var nSize := (bits + 7) / 8;
    var m: nat := LeadingBytes(pn, nSize);
    if TestBit(m, 23) {
      m := m / 0x100;
      nSize := nSize + 1;
    }
    assert nSize < 256 && m < 0x80_0000 by { SignClear(FirstMantissa(v)); }
    assert m == CompactMantissa(v) && nSize == CompactSize(v) by { SignClear(FirstMantissa(v)); }
    Packed(m, nSize);
    var packed: nat := Or(m, nSize * 0x100_0000);
    if fNegative && m != 0 {
      packed := Or(packed, 0x80_0000);
    }
    nCompact := packed;
  }

  lemma SignClear(m: nat)
    requires m < 0x100_0000
    ensures TestBit(m, 23) <==> m >= 0x80_0000
  {
    Pow2Known();
    HighestBit(m, 23);
  }

  lemma Packed(m: nat, n: nat)
    requires m < 0x80_0000
    ensures Or(m, n * 0x100_0000) == m + n * 0x100_0000
    ensures Or(m + n * 0x100_0000, 0x80_0000) == m + n * 0x100_0000 + 0x80_0000
  {
    hide Or, Pow2;
    Pow2Known();
    OrDisjoint(m, n, 24);
    Fields(m, n, 0);
    OrBit(m + n * 0x100_0000, 23);
  }

  // (uint32_t) of GetLow64, shifted to three bytes.
  method LeadingBytes(pn: array<Limb>, nSize: nat) returns (m: Limb)
    requires Wide(pn) && nSize == (BitLen(Value(pn)) + 7) / 8
    ensures m == FirstMantissa(Value(pn))
  {
    hide Pow2, Val, BitLen;
    ghost var v := Value(pn);
    FirstMantissaBounds(v);
    FirstSize(v);
    if nSize <= 3 {
      Pow2Known();
      Pow2Mono(8 * nSize, 24);
      DivUnique(v, BASE * BASE, 0, v);
      var low := GetLow64(pn);
      DivUnique(v * Pow2(8 * (3 - nSize)), BASE, 0, v * Pow2(8 * (3 - nSize)));
      m := (low * Pow2(8 * (3 - nSize))) % BASE;
    } else {
      var bn := Copy(pn);
      ShiftRight(bn, 8 * (nSize - 3));
      DivUnique(Value(bn), BASE * BASE, 0, Value(bn));
      var low := GetLow64(bn);
      m := low % BASE;
    }
  }
}
