// Reading CCoins back: whatever was serialized comes back cleaned up, from exactly its bytes.
module CoinsDecode {
  import opened Bits
  import opened VarInt
  import opened Compressor
  import opened ScriptCodec
  import opened CoinsCache
  import opened CoinsOps
  import opened CoinsCodec

  // Spent outputs are the null output, unspent ones are in the range of money.
  predicate Canonical(vout: seq<TxOut>) {
    forall i :: 0 <= i < |vout| ==> if vout[i].IsNull() then vout[i] == SPENT else MoneyOut(vout[i])
  }

  // What a signed field is read as.
  function Field(n: int): nat {
    if n >= 0 then n else n % 0x80
  }

  // What is read back.
  function Restored(c: Coins): Coins {
    Coins(c.fCoinBase, Trim(c.vout), Field(c.nHeight), Field(c.nVersion))
  }

  // It is the cleaned-up original exactly when neither field is negative.
  lemma RestoredIff(c: Coins)
    ensures Restored(c) == Cleanup(c) <==> c.nVersion >= 0 && c.nHeight >= 0
  {
  }

  lemma SignedRead(n: int, rest: seq<Byte>)
    ensures ReadVarInt(SignedVarInt(n) + rest) == Number(Field(n), |SignedVarInt(n)|)
  {
    if n >= 0 {
      ReadWritten(n, rest);
    }
  }

  // The record of a transaction of version -1 is written and comes back with version 127.
  lemma VersionLost(rest: seq<Byte>)
    ensures var c := Coins(false, [TxOut(50, [])], 500_000, -1);
            && !IsPruned(c) && Cleanup(c) == c
            && ReadVarInt(SignedVarInt(c.nVersion) + rest) == Number(127, 1)
            && Restored(c) == c.(nVersion := 127)
  {
    var c := Coins(false, [TxOut(50, [])], 500_000, -1);
    assert !c.vout[0].IsNull();
    SignedRead(c.nVersion, rest);
    CleanIdle(c);
  }

  lemma Skip(s: seq<Byte>, pos: nat, a: seq<Byte>, t: seq<Byte>)
    requires pos <= |s| && s[pos..] == a + t
    ensures pos + |a| <= |s| && s[pos + |a|..] == t
  {
    assert s[pos..][|a|..] == t;
  }

  // ----- padding and trimming

  function Get(vout: seq<TxOut>, i: nat): TxOut {
    if i < |vout| then vout[i] else SPENT
  }

  // Null outputs at the end do not count.
  lemma {:induction false} TrimSame(a: seq<TxOut>, b: seq<TxOut>)
    requires Canonical(a) && Canonical(b) && forall i: nat :: Get(a, i) == Get(b, i)
    ensures Trim(a) == Trim(b)
    decreases |a| + |b|
  {
    if |a| > |b| {
      assert Get(a, |a| - 1) == SPENT;
      TrimLast(a);
      ShorterSame(a);
      TrimSame(a[..|a| - 1], b);
    } else if |b| > |a| {
      assert Get(b, |b| - 1) == SPENT;
      TrimLast(b);
      ShorterSame(b);
      TrimSame(a, b[..|b| - 1]);
    } else {
      forall i | 0 <= i < |a|
        ensures a[i] == b[i]
      {
        assert Get(a, i) == Get(b, i);
      }
      assert a == b;
    }
  }

  lemma TrimLast(a: seq<TxOut>)
    requires a != [] && a[|a| - 1].IsNull()
    ensures Trim(a) == Trim(a[..|a| - 1])
  {
  }

  lemma ShorterSame(a: seq<TxOut>)
    requires a != [] && a[|a| - 1] == SPENT
    ensures forall i: nat :: Get(a[..|a| - 1], i) == Get(a, i)
  {
  }

  // ----- the header

  function AvailSeq(vout: seq<TxOut>, n: nat): (v: seq<bool>)
    ensures |v| == n && forall i :: 0 <= i < n ==> v[i] == Avail(vout, i)
  {
    seq(n, i => i >= 0 && Avail(vout, i))
  }

  lemma HeaderFields(c: Coins)
    requires !IsPruned(c)
    ensures var nCode := HeaderCode(c);
            && (nCode % 2 == 1 <==> c.fCoinBase)
            && (nCode / 2 % 2 == 1 <==> Avail(c.vout, 0))
            && (nCode / 4 % 2 == 1 <==> Avail(c.vout, 1))
            && nCode / 8 + (if nCode / 2 % 4 != 0 then 0 else 1) == MaskCode(c.vout)
  {
    hide Avail, MaskCode;
    SomeUsed(c.vout);
  }

  // ----- the mask

  // Reading bytes until as many as announced were not zero.
  method ReadMask(stream: seq<Byte>, from: nat, code: nat, first: seq<bool>, ghost vout: seq<TxOut>)
      returns (ok: bool, vAvail: seq<bool>, pos: nat)
    requires from <= |stream|
    ensures ok ==> from <= pos <= |stream|
    ensures MaskThere(stream, from, code, first, vout) ==>
              ok && pos == from + MaskSize(vout) && vAvail == AvailSeq(vout, 2 + 8 * MaskSize(vout))
  {
    hide NonZero, MaskByte, Avail, TestBit, MaskSize, MaskCode;
    ghost var there := MaskThere(stream, from, code, first, vout);
    ghost var b: nat := 0;
    vAvail, pos := first, from;
    var nMaskCode := code;
    MaskStarts(vout);
    while nMaskCode > 0
      invariant from <= pos <= |stream|
      invariant there ==> b <= MaskSize(vout) && pos == from + b && vAvail == AvailSeq(vout, 2 + 8 * b)
      invariant there ==> nMaskCode == MaskCode(vout) - NonZero(vout, b)
      decreases |stream| - pos
    {
      if there {
        MaskGoesOn(vout, b);
        MaskAt(vout, MaskSize(vout), b);
        assert stream[pos] == stream[from..from + MaskSize(vout)][b];
      }
      if pos == |stream| {
        return false, vAvail, pos;
      }
      var chAvail := stream[pos];
      pos := pos + 1;
      ghost var before := vAvail;
      for p := 0 to 8
        invariant |vAvail| == |before| + p && vAvail[..|before|] == before
        invariant forall k :: 0 <= k < p ==> vAvail[|before| + k] == TestBit(chAvail, k)
      {
        vAvail := vAvail + [TestBit(chAvail, p)];
      }
      if chAvail != 0 {
        nMaskCode := nMaskCode - 1;
      }
      if there {
        MaskByteRead(vout, b, before, vAvail);
        b := b + 1;
      }
    }
    if there {
      MaskEnds(vout, b);
    }
    ok := true;
  }

  ghost predicate MaskThere(stream: seq<Byte>, from: nat, code: nat, first: seq<bool>, vout: seq<TxOut>) {
    && from + MaskSize(vout) <= |stream| && stream[from..from + MaskSize(vout)] == Mask(vout, MaskSize(vout))
    && code == MaskCode(vout) && first == AvailSeq(vout, 2)
  }

  lemma MaskStarts(vout: seq<TxOut>)
    ensures NonZero(vout, 0) == 0 && MaskCode(vout) == NonZero(vout, MaskSize(vout))
  {
  }

  lemma MaskGoesOn(vout: seq<TxOut>, b: nat)
    requires b <= MaskSize(vout) && MaskCode(vout) - NonZero(vout, b) > 0
    ensures b < MaskSize(vout)
  {
  }

  // The last byte written is not zero, so reading does not stop before it.
  lemma MaskEnds(vout: seq<TxOut>, b: nat)
    requires b <= MaskSize(vout) && MaskCode(vout) == NonZero(vout, b)
    ensures b == MaskSize(vout)
  {
    NonZeroMono(vout, b, MaskSize(vout));
  }

  lemma MaskByteRead(vout: seq<TxOut>, b: nat, before: seq<bool>, after: seq<bool>)
    requires before == AvailSeq(vout, 2 + 8 * b) && |after| == |before| + 8 && after[..|before|] == before
    requires forall k :: 0 <= k < 8 ==> after[|before| + k] == TestBit(MaskByte(vout, b), k)
    ensures after == AvailSeq(vout, 2 + 8 * (b + 1))
    ensures NonZero(vout, b + 1) == NonZero(vout, b) + if MaskByte(vout, b) != 0 then 1 else 0
  {
    ByteUsedIff(vout, b);
    forall i | 0 <= i < |after|
      ensures after[i] == Avail(vout, i)
    {
      if i >= |before| {
        MaskTest(vout, b, 8, i - |before|);
        assert 2 + b * 8 + (i - |before|) == i;
      } else {
        assert after[i] == before[i];
      }
    }
  }

  // ----- the outputs

  ghost predicate OutsThere(keys: Keys, stream: seq<Byte>, from: nat, vAvail: seq<bool>, vout: seq<TxOut>, tail: seq<Byte>)
    requires from <= |stream| && Valued(vout)
  {
    && KeysOk(keys) && Canonical(vout) && vAvail == AvailSeq(vout, 2 + 8 * MaskSize(vout))
    && stream[from..] == Outs(keys, vout, 0) + tail
  }

  method ReadOuts(keys: Keys, stream: seq<Byte>, from: nat, vAvail: seq<bool>, ghost was: seq<TxOut>, ghost tail: seq<Byte>)
      returns (ok: bool, vout: seq<TxOut>, pos: nat)
    requires from <= |stream| && Valued(was)
    ensures ok ==> from <= pos <= |stream|
    ensures OutsThere(keys, stream, from, vAvail, was, tail) ==>
              ok && stream[pos..] == tail && Canonical(vout) && forall i: nat :: Get(vout, i) == Get(was, i)
  {
    hide OutBytes, KeysOk, MaskSize, OutFrom;
    ghost var there := OutsThere(keys, stream, from, vAvail, was, tail);
    vout := seq(|vAvail|, i => SPENT);
    pos := from;
    for i := 0 to |vAvail|
      invariant from <= pos <= |stream| && |vout| == |vAvail|
      invariant there ==> stream[pos..] == Outs(keys, was, i) + tail
      invariant there ==> forall k: nat :: k < i ==> vout[k] == Get(was, k)
      invariant forall k :: i <= k < |vout| ==> vout[k] == SPENT
    {
      if there && i < |was| {
        OutsStep(keys, was, i, tail);
      }
      if vAvail[i] {
        var r := OutFrom(keys, stream[pos..]);
        if r.NoOut? {
          return false, vout, pos;
        }
        if there {
          Skip(stream, pos, OutBytes(keys, was[i]), Outs(keys, was, i + 1) + tail);
        }
        vout := vout[i := r.out];
        pos := pos + r.used;
      }
    }
    if there {
      OutsEnd(keys, was, |vAvail|);
      Padded(was, vout);
    }
    ok := true;
  }

  lemma OutsStep(keys: Keys, vout: seq<TxOut>, i: nat, tail: seq<Byte>)
    requires KeysOk(keys) && Canonical(vout) && Valued(vout) && i < |vout|
    ensures vout[i].IsNull() ==> Outs(keys, vout, i) == Outs(keys, vout, i + 1) && vout[i] == SPENT
    ensures !vout[i].IsNull() ==>
              && Outs(keys, vout, i) + tail == OutBytes(keys, vout[i]) + (Outs(keys, vout, i + 1) + tail)
              && OutFrom(keys, Outs(keys, vout, i) + tail) == Out(vout[i], |OutBytes(keys, vout[i])|)
  {
    hide OutBytes, KeysOk, OutFrom;
    if !vout[i].IsNull() {
      OutRoundTrip(keys, vout[i], Outs(keys, vout, i + 1) + tail);
      assert Outs(keys, vout, i) + tail == OutBytes(keys, vout[i]) + (Outs(keys, vout, i + 1) + tail);
    }
  }

  lemma {:induction false} OutsEnd(keys: Keys, vout: seq<TxOut>, i: nat)
    requires Valued(vout) && 2 + 8 * MaskSize(vout) <= i
    ensures Outs(keys, vout, i) == []
    decreases |vout| - i
  {
    hide MaskSize, OutBytes;
    if i < |vout| {
      BeyondMask(vout, i);
      OutsEnd(keys, vout, i + 1);
    }
  }

  lemma Padded(was: seq<TxOut>, vout: seq<TxOut>)
    requires Canonical(was) && |vout| == 2 + 8 * MaskSize(was) && forall k: nat :: k < |vout| ==> vout[k] == Get(was, k)
    ensures Canonical(vout) && forall i: nat :: Get(vout, i) == Get(was, i)
  {
    hide MaskSize;
    forall i: nat
      ensures Get(vout, i) == Get(was, i)
    {
      if |vout| <= i < |was| {
        BeyondMask(was, i);
      }
    }
  }

  // ----- the whole

  // The stream starts with the bytes of was.
  ghost predicate Saved(keys: Keys, stream: seq<Byte>, was: Coins, rest: seq<Byte>)
    requires !IsPruned(was) && Valued(was.vout)
  {
    KeysOk(keys) && Canonical(was.vout) && stream == CoinsBytes(keys, was) + rest
  }

  method CleanupOuts(vout: seq<TxOut>) returns (r: seq<TxOut>)
    ensures r == Trim(vout)
  {
    r := vout;
    while |r| > 0 && r[|r| - 1].IsNull()
      invariant Trim(r) == Trim(vout)
    {
      r := r[..|r| - 1];
    }
  }

  method Unserialize(keys: Keys, stream: seq<Byte>, ghost was: Coins, ghost rest: seq<Byte>)
      returns (ok: bool, c: Coins, used: nat)
    requires !IsPruned(was) && Valued(was.vout)
    ensures Saved(keys, stream, was, rest) ==> ok && c == Restored(was) && used == |CoinsBytes(keys, was)|
  {
    hide VarIntOf, SignedVarInt, ReadVarInt, Field, Mask, Outs, KeysOk, HeaderCode, MaskSize, MaskCode, Trim, Get, Valued, IsPruned,
      Canonical;
    c := CLEARED;
    ghost var saved := Saved(keys, stream, was, rest);
    ghost var version, code, mask, outs, height := SignedVarInt(was.nVersion), VarIntOf(HeaderCode(was)),
      Mask(was.vout, MaskSize(was.vout)), Outs(keys, was.vout, 0), SignedVarInt(was.nHeight);
    if saved {
      Pieces(stream, version, code, mask, outs, height, rest);
      SignedRead(was.nVersion, code + (mask + (outs + (height + rest))));
      ReadWritten(HeaderCode(was), mask + (outs + (height + rest)));
      SignedRead(was.nHeight, rest);
      HeaderFields(was);
    }
    var got, nVersion, pos := Read(stream, 0);
    if !got {
      return false, c, 0;
    }
    var nCode;
    got, nCode, pos := Read(stream, pos);
    if !got {
      return false, c, pos;
    }
    var first := [nCode / 2 % 2 == 1, nCode / 4 % 2 == 1];
    var nMaskCode := nCode / 8 + if nCode / 2 % 4 != 0 then 0 else 1;
    if saved {
      assert pos == |version| + |code|;
      assert first == AvailSeq(was.vout, 2);
    }
    var vAvail;
    got, vAvail, pos := ReadMask(stream, pos, nMaskCode, first, was.vout);
    if !got {
      return false, c, pos;
    }
    var vout;
    got, vout, pos := ReadOuts(keys, stream, pos, vAvail, was.vout, height + rest);
    if !got {
      return false, c, pos;
    }
    ghost var beforeHeight := pos;
    var nHeight;
    got, nHeight, pos := Read(stream, pos);
    if !got {
      return false, c, pos;
    }
    if saved {
      TrimSame(vout, was.vout);
      Ends(stream, beforeHeight, version + code + mask + outs, height, rest);
    }
    vout := CleanupOuts(vout);
    return true, Coins(nCode % 2 == 1, vout, nHeight, nVersion), pos;
  }

  lemma Pieces(s: seq<Byte>, a: seq<Byte>, b: seq<Byte>, c: seq<Byte>, d: seq<Byte>, e: seq<Byte>, rest: seq<Byte>)
    requires s == a + b + c + d + e + rest
    ensures s[0..] == a + (b + (c + (d + (e + rest))))
    ensures s[|a|..] == b + (c + (d + (e + rest)))
    ensures |a| + |b| + |c| <= |s| && s[|a| + |b|..|a| + |b| + |c|] == c
    ensures s[|a| + |b| + |c|..] == d + (e + rest)
  {
  }

  lemma Ends(s: seq<Byte>, pos: nat, front: seq<Byte>, e: seq<Byte>, rest: seq<Byte>)
    requires s == front + e + rest && pos <= |s| && s[pos..] == e + rest
    ensures pos == |front|
  {
  }
}
