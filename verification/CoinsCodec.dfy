// The serialized form of CCoins: version, header code, bit mask of the unspent outputs from the
// third on, the unspent outputs, height.
module CoinsCodec {
  import opened Bits
  import opened VarInt
  import opened Compressor
  import opened ScriptCodec
  import opened CoinsCache
  import opened CoinsOps

  // ----- the bit mask

  predicate Avail(vout: seq<TxOut>, i: nat) {
    i < |vout| && !vout[i].IsNull()
  }

  // Bit p of byte b of the mask.
  predicate MaskBit(vout: seq<TxOut>, b: nat, p: nat) {
    Avail(vout, 2 + b * 8 + p)
  }

  // The first n bits of byte b of the mask.
  function MaskBits(vout: seq<TxOut>, b: nat, n: nat): nat {
    if n == 0 then 0
    else if MaskBit(vout, b, n - 1) then Or(MaskBits(vout, b, n - 1), Pow2(n - 1))
    else MaskBits(vout, b, n - 1)
  }

  lemma {:induction false} MaskTest(vout: seq<TxOut>, b: nat, n: nat, p: nat)
    ensures TestBit(MaskBits(vout, b, n), p) <==> p < n && MaskBit(vout, b, p)
  {
    hide TestBit, Or, Pow2, MaskBit;
    if n == 0 {
      ZeroBit(p);
    } else {
      MaskTest(vout, b, n - 1, p);
      OrTest(MaskBits(vout, b, n - 1), Pow2(n - 1), p);
      if p == n - 1 {
        OwnBit(p);
      } else {
        OtherBit(n - 1, p);
      }
    }
  }

  lemma {:induction false} MaskBound(vout: seq<TxOut>, b: nat, n: nat)
    ensures MaskBits(vout, b, n) < Pow2(n)
  {
    if n > 0 {
      MaskBound(vout, b, n - 1);
      OrGrows(MaskBits(vout, b, n - 1), n - 1);
    }
  }

  lemma {:induction false} OrGrows(x: nat, k: nat)
    requires x < Pow2(k)
    ensures Or(x, Pow2(k)) < Pow2(k + 1)
    decreases k
  {
    if k > 0 && x > 0 {
      OrGrows(x / 2, k - 1);
    }
  }

  function MaskByte(vout: seq<TxOut>, b: nat): (r: Byte) {
    MaskBound(vout, b, 8);
    Pow2Of32();
    MaskBits(vout, b, 8)
  }

  predicate ByteUsed(vout: seq<TxOut>, b: nat) {
    exists i :: 0 <= i < 8 && MaskBit(vout, b, i)
  }

  lemma ByteUsedIff(vout: seq<TxOut>, b: nat)
    ensures MaskByte(vout, b) != 0 <==> ByteUsed(vout, b)
  {
    hide TestBit, Or, Pow2, MaskBit, MaskBits;
    if ByteUsed(vout, b) {
      var i :| 0 <= i < 8 && MaskBit(vout, b, i);
      MaskTest(vout, b, 8, i);
      ZeroBit(i);
    } else {
      NoBits(vout, b, 8);
    }
  }

  lemma {:induction false} NoBits(vout: seq<TxOut>, b: nat, n: nat)
    requires n <= 8 && !ByteUsed(vout, b)
    ensures MaskBits(vout, b, n) == 0
  {
    if n > 0 {
      NoBits(vout, b, n - 1);
      assert !MaskBit(vout, b, n - 1);
    }
  }

  // How many mask bytes are looked at; how many of the first n are not zero; how many are
  // written, up to the last that is not zero.
  function MaskRoom(vout: seq<TxOut>): nat {
    if |vout| <= 2 then 0 else (|vout| - 2 + 7) / 8
  }

  function NonZero(vout: seq<TxOut>, n: nat): (c: nat)
    ensures c <= n
  {
    if n == 0 then 0 else NonZero(vout, n - 1) + if ByteUsed(vout, n - 1) then 1 else 0
  }

  function LastUsed(vout: seq<TxOut>, n: nat): (k: nat)
    ensures k <= n && (k > 0 ==> ByteUsed(vout, k - 1))
    ensures forall b :: k <= b < n ==> !ByteUsed(vout, b)
    ensures NonZero(vout, n) == NonZero(vout, k)
  {
    if n == 0 || ByteUsed(vout, n - 1) then n else LastUsed(vout, n - 1)
  }

  function MaskSize(vout: seq<TxOut>): nat {
    LastUsed(vout, MaskRoom(vout))
  }

  function MaskCode(vout: seq<TxOut>): nat {
    NonZero(vout, MaskRoom(vout))
  }

  lemma {:induction false} NonZeroMono(vout: seq<TxOut>, m: nat, n: nat)
    requires m <= n
    ensures NonZero(vout, m) <= NonZero(vout, n)
    ensures m < n && ByteUsed(vout, n - 1) ==> NonZero(vout, m) < NonZero(vout, n)
  {
    if m < n {
      NonZeroMono(vout, m, n - 1);
    }
  }

  // Beyond the mask written, nothing is unspent.
  lemma BeyondMask(vout: seq<TxOut>, i: nat)
    requires 2 + 8 * MaskSize(vout) <= i
    ensures !Avail(vout, i)
  {
    if i < |vout| {
      var b := (i - 2) / 8;
      assert i == 2 + b * 8 + (i - 2) % 8;
      assert !ByteUsed(vout, b);
      assert !MaskBit(vout, b, (i - 2) % 8);
    }
  }

  method CalcMaskSize(vout: seq<TxOut>) returns (nBytes: nat, nNonzeroBytes: nat)
    ensures nBytes == MaskSize(vout) && nNonzeroBytes == MaskCode(vout)
  {
    nBytes, nNonzeroBytes := 0, 0;
    var b := 0;
    while 2 + b * 8 < |vout|
      invariant b <= MaskRoom(vout)
      invariant nBytes == LastUsed(vout, b) && nNonzeroBytes == NonZero(vout, b)
    {
      var fZero := true;
      var i := 0;
      while i < 8 && 2 + b * 8 + i < |vout|
        invariant 0 <= i <= 8
        invariant fZero <==> forall k :: 0 <= k < i ==> !MaskBit(vout, b, k)
      {
        assert MaskBit(vout, b, i) <==> !vout[2 + b * 8 + i].IsNull();
        if !vout[2 + b * 8 + i].IsNull() {
          fZero := false;
        }
        i := i + 1;
      }
      if !fZero {
        nBytes := b + 1;
        nNonzeroBytes := nNonzeroBytes + 1;
      }
      b := b + 1;
    }
  }

  // ----- the bytes

  function Mask(vout: seq<TxOut>, n: nat): (m: seq<Byte>)
    ensures |m| == n
  {
    if n == 0 then [] else Mask(vout, n - 1) + [MaskByte(vout, n - 1)]
  }

  lemma {:induction false} MaskAt(vout: seq<TxOut>, n: nat, b: nat)
    requires b < n
    ensures Mask(vout, n)[b] == MaskByte(vout, b)
  {
    if b < n - 1 {
      MaskAt(vout, n - 1, b);
    }
  }

  // Unspent outputs have a value.
  predicate Valued(vout: seq<TxOut>) {
    forall i :: 0 <= i < |vout| && !vout[i].IsNull() ==> vout[i].nValue >= 0
  }

  function Outs(keys: Keys, vout: seq<TxOut>, i: nat): (b: seq<Byte>)
    requires Valued(vout)
    decreases |vout| - i
  {
    if i >= |vout| then []
    else (if vout[i].IsNull() then [] else OutBytes(keys, vout[i])) + Outs(keys, vout, i + 1)
  }

  function HeaderCode(c: Coins): nat
    requires !IsPruned(c)
  {
    var fFirst, fSecond := Avail(c.vout, 0), Avail(c.vout, 1);
    SomeUsed(c.vout);
    8 * (MaskCode(c.vout) - (if fFirst || fSecond then 0 else 1))
    + (if c.fCoinBase then 1 else 0) + (if fFirst then 2 else 0) + (if fSecond then 4 else 0)
  }

  // The assertion of Serialize: something is unspent.
  lemma SomeUsed(vout: seq<TxOut>)
    requires exists i :: 0 <= i < |vout| && !vout[i].IsNull()
    ensures Avail(vout, 0) || Avail(vout, 1) || MaskCode(vout) > 0
  {
    var i :| 0 <= i < |vout| && !vout[i].IsNull();
    if i >= 2 {
      var b := (i - 2) / 8;
      assert MaskBit(vout, b, (i - 2) % 8);
      NonZeroMono(vout, b, b + 1);
      NonZeroMono(vout, b + 1, MaskRoom(vout));
    }
  }

  function CoinsBytes(keys: Keys, c: Coins): (s: seq<Byte>)
    requires !IsPruned(c) && Valued(c.vout)
  {
    SignedVarInt(c.nVersion) + VarIntOf(HeaderCode(c)) + Mask(c.vout, MaskSize(c.vout)) + Outs(keys, c.vout, 0)
    + SignedVarInt(c.nHeight)
  }

  method WriteOut(keys: Keys, out: TxOut) returns (b: seq<Byte>)
    requires 0 <= out.nValue < WRAP
    ensures b == OutBytes(keys, out)
  {
    var nVal := CompressAmount(out.nValue);
    b := WriteVarInt(nVal);
    b := b + ScriptBytes(keys, out.script);
  }

  // The bits of one mask byte.
  method WriteMaskByte(vout: seq<TxOut>, b: nat) returns (chAvail: Byte)
    ensures chAvail == MaskByte(vout, b)
  {
    var ch := 0;
    MaskBound(vout, b, 8);
    Pow2Of32();
    var i := 0;
    while i < 8 && 2 + b * 8 + i < |vout|
      invariant 0 <= i <= 8 && ch == MaskBits(vout, b, i)
    {
      if !vout[2 + b * 8 + i].IsNull() {
        ch := Or(ch, Pow2(i));
      }
      i := i + 1;
    }
    PastEnd(vout, b, i, 8);
    chAvail := ch;
  }

  lemma {:induction false} PastEnd(vout: seq<TxOut>, b: nat, i: nat, n: nat)
    requires i <= n && (i < n ==> |vout| <= 2 + b * 8 + i)
    ensures MaskBits(vout, b, n) == MaskBits(vout, b, i)
    decreases n
  {
    if i < n {
      PastEnd(vout, b, i, n - 1);
    }
  }

  method Serialize(keys: Keys, c: Coins) returns (s: seq<Byte>)
    requires !IsPruned(c) && Valued(c.vout) && forall i :: 0 <= i < |c.vout| ==> c.vout[i].nValue < WRAP
    ensures s == CoinsBytes(keys, c)
  {
    hide MaskByte, OutBytes, SignedVarInt, VarIntOf, ByteUsed, Outs, Mask, MaskSize, MaskCode;
    var nMaskSize, nMaskCode := CalcMaskSize(c.vout);
    var fFirst := |c.vout| > 0 && !c.vout[0].IsNull();
    var fSecond := |c.vout| > 1 && !c.vout[1].IsNull();
    SomeUsed(c.vout);
    assert fFirst || fSecond || nMaskCode > 0;
    var nCode: int := 8 * (nMaskCode - (if fFirst || fSecond then 0 else 1))
      + (if c.fCoinBase then 1 else 0) + (if fFirst then 2 else 0) + (if fSecond then 4 else 0);
    s := WriteVarInt(c.nVersion);
    var code := WriteVarInt(nCode);
    NotSigned(nCode);
    s := s + code;
    ghost var head := s;
    MaskNext(c.vout, 0);
    for b := 0 to nMaskSize
      invariant s == head + Mask(c.vout, b)
    {
      MaskNext(c.vout, b);
      var chAvail := WriteMaskByte(c.vout, b);
      s := s + [chAvail];
    }
    head := s;
    for i := 0 to |c.vout|
      invariant s + Outs(keys, c.vout, i) == head + Outs(keys, c.vout, 0)
    {
      OutsNext(keys, c.vout, i);
      if !c.vout[i].IsNull() {
        var out := WriteOut(keys, c.vout[i]);
        assert s + Outs(keys, c.vout, i) == (s + out) + Outs(keys, c.vout, i + 1);
        s := s + out;
      }
    }
    OutsNext(keys, c.vout, |c.vout|);
    assert s == head + Outs(keys, c.vout, 0);
    var height := WriteVarInt(c.nHeight);
    s := s + height;
  }

  lemma MaskNext(vout: seq<TxOut>, b: nat)
    ensures Mask(vout, 0) == [] && Mask(vout, b + 1) == Mask(vout, b) + [MaskByte(vout, b)]
  {
  }

  lemma OutsNext(keys: Keys, vout: seq<TxOut>, i: nat)
    requires Valued(vout)
    ensures Outs(keys, vout, i) == if i >= |vout| then []
            else if vout[i].IsNull() then Outs(keys, vout, i + 1)
            else OutBytes(keys, vout[i]) + Outs(keys, vout, i + 1)
  {
    hide OutBytes;
  }

  lemma NotSigned(n: nat)
    ensures SignedVarInt(n) == VarIntOf(n)
  {
  }

  method ScriptSize(keys: Keys, script: seq<Byte>) returns (nSize: nat)
    ensures nSize == |ScriptBytes(keys, script)|
  {
    var compr := Compress(keys, script);
    if compr != [] {
      return |compr|;
    }
    nSize := GetSizeOfVarInt(|script| + SPECIAL_SCRIPTS);
    nSize := |script| + nSize;
  }

  // The length of the bytes, found without writing them.
  method GetSerializeSize(keys: Keys, c: Coins) returns (nSize: nat)
    requires !IsPruned(c) && Valued(c.vout) && forall i :: 0 <= i < |c.vout| ==> c.vout[i].nValue < WRAP
    ensures nSize == |CoinsBytes(keys, c)|
  {
    hide MaskByte, ScriptBytes, SignedVarInt, VarIntOf, ByteUsed, Compressed;
    var nMaskSize, nMaskCode := CalcMaskSize(c.vout);
    var fFirst := |c.vout| > 0 && !c.vout[0].IsNull();
    var fSecond := |c.vout| > 1 && !c.vout[1].IsNull();
    SomeUsed(c.vout);
    assert fFirst || fSecond || nMaskCode > 0;
    var nCode: int := 8 * (nMaskCode - (if fFirst || fSecond then 0 else 1))
      + (if c.fCoinBase then 1 else 0) + (if fFirst then 2 else 0) + (if fSecond then 4 else 0);
    nSize := GetSizeOfVarInt(c.nVersion);
    var code := GetSizeOfVarInt(nCode);
    NotSigned(nCode);
    nSize := nSize + code + nMaskSize;
    ghost var before := nSize;
    for i := 0 to |c.vout|
      invariant nSize + |Outs(keys, c.vout, i)| == before + |Outs(keys, c.vout, 0)|
    {
      if !c.vout[i].IsNull() {
        var nVal := CompressAmount(c.vout[i].nValue);
        NotSigned(nVal);
        var amount := GetSizeOfVarInt(nVal);
        var script := ScriptSize(keys, c.vout[i].script);
        nSize := nSize + amount + script;
      }
    }
    var height := GetSizeOfVarInt(c.nHeight);
    nSize := nSize + height;
  }
}
