// The documented values and byte strings of compressed amounts, scripts and records.
module CoinsFormat {
  import opened Bits
  import opened VarInt
  import opened VarIntFormat
  import opened Compressor
  import opened ScriptCodec
  import opened CoinsCache
  import opened CoinsOps
  import opened CoinsCodec

  const CENT := 1_000_000
  const COIN := 100_000_000

  // ----- amounts

  lemma Amounts()
    ensures Compressed(0) == 0 && Compressed(1) == 1
    ensures Compressed(CENT) == 0x7 && Compressed(COIN) == 0x9
    ensures Compressed(50 * COIN) == 0x32 && Compressed(MAX_MONEY) == 0x1406f40
    ensures Compressed(600 * COIN) == 600 && Compressed(234_925_952) == 2_114_333_561 && Compressed(110_397) == 993_571
  {
    CompressedIs(1, 6);
    CompressedIs(1, 8);
    CompressedIs(5, 9);
    CompressedIs(60, 9);
    CompressedIs(2_100_000, 9);
    CompressedIs(234_925_952, 0);
    CompressedIs(110_397, 0);
    CompressedIs(1, 0);
    Tens();
  }

  lemma CompressedIs(m: nat, e: nat)
    requires e <= 9 && m > 0 && (e < 9 ==> m % 10 != 0)
    ensures 0 <= m * Ten(e) && Compressed(m * Ten(e)) == Code(m, e)
  {
    hide Ten, Code, Zeros;
    ZerosUnique(m, e, 0);
    PositiveProduct(m, Ten(e));
  }

  lemma Tens()
    ensures Ten(0) == 1 && Ten(6) == CENT && Ten(8) == COIN && Ten(9) == 10 * COIN
  {
  }

  // ----- scripts

  // The forms that have a tag, how long they are, and what the tags are.
  lemma SpecialForms(keys: Keys, s: seq<Byte>)
    ensures var out := Compress(keys, s);
            && (out != [] <==> IsToKeyID(s) || IsToScriptID(s) || IsToShortKey(s) || IsToLongKey(keys, s))
            && (IsToKeyID(s) ==> out[0] == 0 && |out| == 21)
            && (IsToScriptID(s) ==> out[0] == 1 && |out| == 21)
            && (IsToShortKey(s) ==> (out[0] == 2 || out[0] == 3) && |out| == 33 && out == s[1..34])
            && (IsToLongKey(keys, s) ==> (out[0] == 4 || out[0] == 5) && |out| == 33 && [out[0] - 2] + out[1..] == Short(s[1..66]))
  {
    if IsToLongKey(keys, s) {
      LongSlices(s);
    } else if IsToShortKey(s) {
      assert s[1..34] == [s[1]] + s[2..34];
    }
  }

  lemma LongSlices(s: seq<Byte>)
    requires |s| == 67
    ensures s[1..66][1..33] == s[2..34] && s[1..66][64] == s[65]
  {
  }

  // OP_DUP OP_HASH160 hash OP_EQUALVERIFY OP_CHECKSIG
  function PayToKeyHash(hash: seq<Byte>): seq<Byte> {
    [OP_DUP, OP_HASH160, 20] + hash + [OP_EQUALVERIFY, OP_CHECKSIG]
  }

  lemma KeyHashOut(keys: Keys, nValue: nat, hash: seq<Byte>)
    requires |hash| == 20 && Compressed(nValue) < WRAP
    ensures OutBytes(keys, TxOut(nValue, PayToKeyHash(hash))) == VarIntOf(Compressed(nValue)) + [0x00] + hash
  {
    hide Compressed, VarIntOf;
    var s := PayToKeyHash(hash);
    assert s[3..23] == hash;
    assert ScriptBytes(keys, s) == [0x00] + hash;
    DivUnique(Compressed(nValue), WRAP, 0, Compressed(nValue));
  }

  // ----- the two documented records

  const HASH1: seq<Byte> := [0x81, 0x61, 0x15, 0x94, 0x4e, 0x07, 0x7f, 0xe7, 0xc8, 0x03, 0xcf, 0xa5, 0x7f, 0x29, 0xb3, 0x6b, 0xf8, 0x7c, 0x1d, 0x35]
  const HASH2: seq<Byte> := [0x61, 0xb0, 0x1c, 0xaa, 0xb5, 0x0f, 0x1b, 0x8e, 0x9c, 0x50, 0xa5, 0x05, 0x7e, 0xb4, 0x3c, 0x2d, 0x95, 0x63, 0xa4, 0xee]
  const HASH3: seq<Byte> := [0x8c, 0x98, 0x8f, 0x1a, 0x4a, 0x4d, 0xe2, 0x16, 0x1e, 0x0f, 0x50, 0xaa, 0xc7, 0xf1, 0x7e, 0x7f, 0x95, 0x55, 0xca, 0xa4]

  const FIRST := Coins(false, [SPENT, TxOut(600 * COIN, PayToKeyHash(HASH1))], 203998, 1)

  lemma FirstParts(keys: Keys)
    ensures !IsPruned(FIRST) && Valued(FIRST.vout)
    ensures HeaderCode(FIRST) == 4 && Mask(FIRST.vout, MaskSize(FIRST.vout)) == []
    ensures Outs(keys, FIRST.vout, 0) == OutBytes(keys, FIRST.vout[1])
  {
    assert Avail(FIRST.vout, 1);
    OutsNext(keys, FIRST.vout, 0);
    OutsNext(keys, FIRST.vout, 1);
    OutsNext(keys, FIRST.vout, 2);
    hide OutBytes, PayToKeyHash, Outs;
  }

  // One output, the second of two.
  lemma FirstRecord(keys: Keys)
    ensures !IsPruned(FIRST) && Valued(FIRST.vout)
    ensures CoinsBytes(keys, FIRST) == [0x01, 0x04, 0x83, 0x58, 0x00] + HASH1 + [0x8b, 0xb8, 0x5e]
  {
    hide Outs, OutBytes, VarIntOf, Compressed, Mask, MaskSize, HeaderCode, IsPruned, PayToKeyHash, HASH1, Valued;
    FirstParts(keys);
    FirstNumbers();
    HashLengths();
    KeyHashOut(keys, 600 * COIN, HASH1);
    FirstJoined(HASH1);
  }

  lemma HashLengths()
    ensures |HASH1| == |HASH2| == |HASH3| == 20
  {
  }

  lemma FirstNumbers()
    ensures Compressed(600 * COIN) == 600 && VarIntOf(600) == [0x83, 0x58]
    ensures SignedVarInt(1) == [0x01] && VarIntOf(4) == [0x04] && SignedVarInt(203998) == [0x8b, 0xb8, 0x5e]
  {
    hide Compressed;
    Amounts();
  }

  lemma FirstJoined(hash: seq<Byte>)
    ensures [0x01] + [0x04] + [] + ([0x83, 0x58] + [0x00] + hash) + [0x8b, 0xb8, 0x5e]
         == [0x01, 0x04, 0x83, 0x58, 0x00] + hash + [0x8b, 0xb8, 0x5e]
  {
  }

  const NULLS4 := [SPENT, SPENT, SPENT, SPENT]
  const NULLS11 := [SPENT, SPENT, SPENT, SPENT, SPENT, SPENT, SPENT, SPENT, SPENT, SPENT, SPENT]
  const SECOND := Coins(true,
                        NULLS4 + [TxOut(234_925_952, PayToKeyHash(HASH2))] + NULLS11 + [TxOut(110_397, PayToKeyHash(HASH3))],
                        120891, 1)

  lemma SecondShape()
    ensures |SECOND.vout| == 17 && SECOND.fCoinBase && !IsPruned(SECOND) && Valued(SECOND.vout)
    ensures forall i: nat :: Avail(SECOND.vout, i) <==> i == 4 || i == 16
    ensures SECOND.vout[4] == TxOut(234_925_952, PayToKeyHash(HASH2)) && SECOND.vout[16] == TxOut(110_397, PayToKeyHash(HASH3))
  {
    hide PayToKeyHash, HASH2, HASH3;
    assert !SECOND.vout[4].IsNull();
  }

  // A byte of the mask with one bit in it.
  lemma {:induction false} OneBit(vout: seq<TxOut>, b: nat, p: nat, n: nat)
    requires n <= 8 && forall i :: 0 <= i < 8 ==> (MaskBit(vout, b, i) <==> i == p)
    ensures MaskBits(vout, b, n) == if p < n then Pow2(p) else 0
  {
    hide MaskBit, Pow2;
    if n > 0 {
      OneBit(vout, b, p, n - 1);
    }
  }

  lemma {:induction false} NoOuts(keys: Keys, vout: seq<TxOut>, i: nat, j: nat)
    requires Valued(vout) && i <= j <= |vout| && forall k: nat :: i <= k < j ==> !Avail(vout, k)
    ensures Outs(keys, vout, i) == Outs(keys, vout, j)
    decreases j - i
  {
    hide OutBytes, Outs;
    if i < j {
      OutsNext(keys, vout, i);
      assert !Avail(vout, i);
      NoOuts(keys, vout, i + 1, j);
    }
  }

  lemma SecondOuts(keys: Keys)
    ensures Valued(SECOND.vout)
    ensures Outs(keys, SECOND.vout, 0) == OutBytes(keys, SECOND.vout[4]) + OutBytes(keys, SECOND.vout[16])
  {
    hide OutBytes, Outs, SECOND, Valued, PayToKeyHash;
    SecondShape();
    NoOuts(keys, SECOND.vout, 0, 4);
    OutsNext(keys, SECOND.vout, 4);
    NoOuts(keys, SECOND.vout, 5, 16);
    OutsNext(keys, SECOND.vout, 16);
    OutsNext(keys, SECOND.vout, 17);
  }

  lemma SecondMask()
    ensures !IsPruned(SECOND) && HeaderCode(SECOND) == 9 && Mask(SECOND.vout, MaskSize(SECOND.vout)) == [0x04, 0x40]
  {
    SecondShape();
    hide PayToKeyHash, Avail, IsPruned, Valued, Pow2;
    var vout := SECOND.vout;
    hide SECOND;
    forall b, i | 0 <= b < 2 && 0 <= i < 8
      ensures MaskBit(vout, b, i) <==> b * 8 + i == 2 || b * 8 + i == 14
    {
    }
    OneBit(vout, 0, 2, 8);
    OneBit(vout, 1, 6, 8);
    Powers();
    ByteUsedIff(vout, 0);
    ByteUsedIff(vout, 1);
    assert MaskRoom(vout) == 2;
    hide ByteUsed, MaskByte, MaskBits;
    assert NonZero(vout, 2) == NonZero(vout, 1) + 1 == 2;
    assert MaskSize(vout) == 2 && MaskCode(vout) == 2;
    MaskNext(vout, 0);
    MaskNext(vout, 1);
  }

  lemma Powers()
    ensures Pow2(2) == 0x04 && Pow2(6) == 0x40
  {
  }

  // A coinbase with two outputs, of which the mask tells.
  lemma SecondRecord(keys: Keys)
    ensures !IsPruned(SECOND) && Valued(SECOND.vout)
    ensures CoinsBytes(keys, SECOND)
         == [0x01, 0x09, 0x04, 0x40, 0x86, 0xef, 0x97, 0xd5, 0x79, 0x00] + HASH2
            + [0xbb, 0xd1, 0x23, 0x00] + HASH3 + [0x86, 0xaf, 0x3b]
  {
    hide Outs, OutBytes, VarIntOf, Compressed, Mask, MaskSize, HeaderCode, IsPruned, PayToKeyHash, HASH2, HASH3, Valued;
    SecondShape();
    SecondMask();
    SecondOuts(keys);
    SecondNumbers();
    HashLengths();
    KeyHashOut(keys, 234_925_952, HASH2);
    KeyHashOut(keys, 110_397, HASH3);
    SecondJoined(HASH2, HASH3);
  }

  lemma SecondNumbers()
    ensures Compressed(234_925_952) == 2_114_333_561 && VarIntOf(2_114_333_561) == [0x86, 0xef, 0x97, 0xd5, 0x79]
    ensures Compressed(110_397) == 993_571 && VarIntOf(993_571) == [0xbb, 0xd1, 0x23]
    ensures SignedVarInt(1) == [0x01] && VarIntOf(9) == [0x09] && SignedVarInt(120891) == [0x86, 0xaf, 0x3b]
  {
    hide Compressed, Leading;
    Amounts();
    LeadingIs(16_518_229);
    LeadingIs(129_047);
    LeadingIs(1007);
    LeadingIs(6);
    LeadingIs(993_571 / 0x80 - 1);
    LeadingIs(59);
    LeadingIs(120_891 / 0x80 - 1);
    LeadingIs(6);
  }

  lemma LeadingIs(n: nat)
    ensures Leading(n) == if n <= 0x7F then [0x80 + n] else Leading(n / 0x80 - 1) + [0x80 + n % 0x80]
  {
  }

  lemma SecondJoined(hash: seq<Byte>, next: seq<Byte>)
    ensures [0x01] + [0x09] + [0x04, 0x40] + (([0x86, 0xef, 0x97, 0xd5, 0x79] + [0x00] + hash) + ([0xbb, 0xd1, 0x23] + [0x00] + next))
            + [0x86, 0xaf, 0x3b]
         == [0x01, 0x09, 0x04, 0x40, 0x86, 0xef, 0x97, 0xd5, 0x79, 0x00] + hash
            + [0xbb, 0xd1, 0x23, 0x00] + next + [0x86, 0xaf, 0x3b]
  {
  }
}
