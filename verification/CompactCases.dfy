// Documented values of the compact encoding.
module CompactCases {
  import opened Bits
  import opened Limbs
  import opened ArithShift
  import opened ArithUint256
  import opened Compact

  lemma SmallPowers()
    ensures Pow2(0) == 1 && Pow2(7) == 0x80 && Pow2(8) == 0x100 && Pow2(15) == 0x8000 && Pow2(16) == 0x1_0000
    ensures Pow2(23) == 0x80_0000 && Pow2(31) == 0x8000_0000 && Pow2(39) == 0x80_0000_0000 && Pow2(47) == 0x8000_0000_0000
  {
    Pow2Known();
    Pow2Add(23, 8);
    Pow2Add(31, 8);
    Pow2Add(39, 8);
  }

  lemma DecodedValues()
    ensures Decoded(0x0000_0000) == Decoded(0x0012_3456) == Decoded(0x0100_3456) == Decoded(0x0480_0000) == 0
    ensures Decoded(0x0112_3456) == 0x12 && Decoded(0x0212_3456) == 0x1234 && Decoded(0x0312_3456) == 0x12_3456
    ensures Decoded(0x0412_3456) == 0x1234_5600 && Decoded(0x0500_9234) == 0x9234_0000
    ensures Decoded(0x0492_3456) == 0x1234_5600 && SignBit(0x0492_3456) && !SignBit(0x0412_3456)
    ensures Decoded(0x0512_3456) == 0x12_3456_0000 && Decoded(0x0600_c0de) == 0xc0_de00_0000
    ensures Decoded(0x01fe_dcba) == 0x7e && SignBit(0x01fe_dcba)
  {
    SmallPowers();
    Pow2Of32();
    Pow2Known();
    hide Pow2;
  }

  // The fields of an encoding, given its number of bytes.
  lemma EncodedAs(v: nat, n: nat, fNegative: bool)
    requires 0 < n && 0 < v < Modulus() && v < Pow2(8 * n - 1) && (n > 1 ==> Pow2(8 * n - 9) <= v)
    ensures n <= 3 ==> 0 <= v * Pow2(8 * (3 - n)) && Encoded(v, fNegative) == v * Pow2(8 * (3 - n)) + n * 0x100_0000 + if fNegative then 0x80_0000 else 0
    ensures n > 3 ==> 0 <= v / Pow2(8 * (n - 3)) && Encoded(v, fNegative) == v / Pow2(8 * (n - 3)) + n * 0x100_0000 + if fNegative then 0x80_0000 else 0
  {
    hide Pow2, CompactSize;
    SizeUnique(v, n);
    MantissaZero(v);
    if n <= 3 {
      MulNonneg(v, Pow2(8 * (3 - n)));
    }
  }

  lemma Fits256()
    ensures 0x1_0000_0000_0000 < Modulus()
  {
    SmallPowers();
    Pow2Mono(49, 256);
    assert Pow2(49) == 4 * Pow2(47);
  }

  lemma EncodedValues()
    ensures 0x1_0000_0000_0000 < Modulus()
    ensures Encoded(0, false) == 0 && Encoded(0x12, false) == 0x0112_0000 && Encoded(0x80, false) == 0x0200_8000
    ensures Encoded(0x7e, true) == 0x01fe_0000 && Encoded(0x1234, false) == 0x0212_3400 && Encoded(0x12_3456, false) == 0x0312_3456
    ensures Encoded(0x1234_5600, false) == 0x0412_3456 && Encoded(0x1234_5600, true) == 0x0492_3456
    ensures Encoded(0x9234_0000, false) == 0x0500_9234
    ensures Encoded(0x12_3456_0000, false) == 0x0512_3456 && Encoded(0xc0_de00_0000, false) == 0x0600_c0de
  {
    Fits256();
    SmallPowers();
    hide Pow2, Encoded, Modulus;
    ZeroEncoded();
    EncodedAs(0x12, 1, false);
    EncodedAs(0x80, 2, false);
    EncodedAs(0x7e, 1, true);
    EncodedAs(0x1234, 2, false);
    EncodedAs(0x12_3456, 3, false);
    EncodedAs(0x1234_5600, 4, false);
    EncodedAs(0x1234_5600, 4, true);
    EncodedAs(0x9234_0000, 5, false);
    Pow2Known();
    EncodedAs(0x12_3456_0000, 5, false);
    EncodedAs(0xc0_de00_0000, 6, false);
  }

  lemma ZeroEncoded()
    ensures 0 < Modulus() && Encoded(0, false) == 0
  {
    SizeZero();
    MantissaZero(0);
  }
}
