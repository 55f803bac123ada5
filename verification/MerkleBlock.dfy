// CPartialMerkleTree: the object whose methods push to and read from the two streams, the
// packing of flag bits into bytes, and the round trip through both.
module MerkleBlock {
  import opened Bits
  import opened MerkleTree
  import opened MerkleProofs

  // ----- flag bits in bytes, least significant bit first

  function PackByte(bits: seq<bool>): (v: nat)
    ensures v < Pow2(|bits|)
  {
    if bits == [] then 0 else (if bits[0] then 1 else 0) + 2 * PackByte(bits[1..])
  }

  lemma {:induction false} PackByteAppend(bits: seq<bool>, b: bool)
    ensures PackByte(bits + [b]) == PackByte(bits) + (if b then 1 else 0) * Pow2(|bits|)
  {
    if bits == [] {
      assert [] + [b] == [b];
    } else {
      PackByteAppend(bits[1..], b);
      assert (bits + [b])[1..] == bits[1..] + [b];
    }
  }

  lemma {:induction false} PackedBit(bits: seq<bool>, i: nat)
    ensures TestBit(PackByte(bits), i) <==> i < |bits| && bits[i]
  {
    hide TestBit, Pow2;
    if bits == [] {
      ZeroBit(i);
    } else {
      TestBitStep(PackByte(bits), i);
      if i > 0 {
        PackedBit(bits[1..], i - 1);
      }
    }
  }

  // The bits of byte k among the first p bits.
  function ByteBits(bits: seq<bool>, p: nat, k: nat): (b: seq<bool>)
    requires p <= |bits|
    ensures |b| <= 8
  {
    if p <= 8 * k then [] else if p <= 8 * k + 8 then bits[8 * k..p] else bits[8 * k..8 * k + 8]
  }

  function Pack(bits: seq<bool>): (bytes: seq<nat>)
    ensures |bytes| == (|bits| + 7) / 8
  {
    seq((|bits| + 7) / 8, k requires 0 <= k => PackByte(ByteBits(bits, |bits|, k)))
  }

  function Unpack(bytes: seq<nat>): (bits: seq<bool>)
    ensures |bits| == 8 * |bytes|
  {
    seq(8 * |bytes|, p requires 0 <= p < 8 * |bytes| => TestBit(bytes[p / 8], p % 8))
  }

  // Unpacking gives the bits back, followed by padding.
  lemma UnpackPack(bits: seq<bool>)
    ensures var back := Unpack(Pack(bits));
            && |bits| <= |back| < |bits| + 8 && back[..|bits|] == bits
            && (|back| + 7) / 8 == (|bits| + 7) / 8
            && forall p :: |bits| <= p < |back| ==> !back[p]
  {
    var back := Unpack(Pack(bits));
    forall p | 0 <= p < |back|
      ensures back[p] <==> p < |bits| && bits[p]
    {
      PackedBit(ByteBits(bits, |bits|, p / 8), p % 8);
    }
  }

  // One more bit lands in its byte by an or, and in no other byte.
  lemma PackStep(bits: seq<bool>, p: nat, k: nat)
    requires p < |bits|
    ensures var before, bit := PackByte(ByteBits(bits, p, k)), if bits[p] then 1 else 0;
            PackByte(ByteBits(bits, p + 1, k)) == if k == p / 8 then Or(before, bit * Pow2(p % 8)) else before
  {
    if k == p / 8 {
      var before := ByteBits(bits, p, k);
      assert ByteBits(bits, p + 1, k) == before + [bits[p]];
      PackByteAppend(before, bits[p]);
      OrDisjoint(PackByte(before), if bits[p] then 1 else 0, p % 8);
    }
  }

  lemma NothingPacked(bits: seq<bool>)
    ensures forall k :: 0 <= k ==> PackByte(ByteBits(bits, 0, k)) == 0
  {
  }

  method PackBits(vBits: seq<bool>) returns (vBytes: array<nat>)
    ensures fresh(vBytes) && vBytes[..] == Pack(vBits)
  {
    hide PackByte, ByteBits, Or, Pow2;
    vBytes := new nat[(|vBits| + 7) / 8](_ => 0);
    NothingPacked(vBits);
    for p := 0 to |vBits|
      invariant forall k :: 0 <= k < vBytes.Length ==> vBytes[k] == PackByte(ByteBits(vBits, p, k))
    {
      forall k | 0 <= k < vBytes.Length
        ensures PackByte(ByteBits(vBits, p + 1, k)) ==
          if k == p / 8 then Or(vBytes[k], (if vBits[p] then 1 else 0) * Pow2(p % 8)) else vBytes[k]
      {
        PackStep(vBits, p, k);
      }
      vBytes[p / 8] := Or(vBytes[p / 8], (if vBits[p] then 1 else 0) * Pow2(p % 8));
    }
  }

  method UnpackBits(vBytes: seq<nat>) returns (vBits: seq<bool>)
    ensures vBits == Unpack(vBytes)
  {
    vBits := seq(8 * |vBytes|, _ => false);
    for p := 0 to |vBits|
      invariant |vBits| == 8 * |vBytes|
      invariant forall q :: 0 <= q < p ==> vBits[q] == Unpack(vBytes)[q]
    {
      vBits := vBits[p := TestBit(vBytes[p / 8], p % 8)];
    }
  }

  // ----- the object

  lemma AppendAssoc(a: Partial, b: Partial, c: Partial)
    ensures Append(Append(a, b), c) == Append(a, Append(b, c))
  {
  }

  lemma AppendHead(a: Partial, flag: bool, rest: Partial)
    ensures Append(a.(bits := a.bits + [flag]), rest) == Append(a, Append(Partial([flag], []), rest))
  {
  }

  class PartialMerkleTree {
    const hash: Hash
    var nTransactions: nat
    var vBits: seq<bool>
    var vHash: seq<Digest>
    var fBad: bool

    ghost function Streams(): Partial
      reads this
    {
      Partial(vBits, vHash)
    }

    method ComputeHeight() returns (nHeight: nat)
      requires nTransactions < 0x1_0000_0000
      ensures nHeight == Height(nTransactions)
    {
      nHeight := 0;
      TopWidth(nTransactions);
      while CalcTreeWidth(nTransactions, nHeight) > 1
        invariant nHeight <= 31 && HeightFrom(nTransactions, nHeight) == Height(nTransactions)
        decreases 31 - nHeight
      {
        nHeight := nHeight + 1;
      }
    }

    method NodeHash(height: nat, pos: nat, vTxid: seq<Digest>) returns (digest: Digest)
      requires Node(|vTxid|, height, pos) && nTransactions == |vTxid|
      ensures digest == CalcHash(hash, vTxid, height, pos)
      decreases height
    {
      if height == 0 {
        WidthZero(|vTxid|);
        return vTxid[pos];
      }
      Children(|vTxid|, height, pos);
      var left := NodeHash(height - 1, pos * 2, vTxid);
      var right := left;
      if pos * 2 + 1 < CalcTreeWidth(nTransactions, height - 1) {
        right := NodeHash(height - 1, pos * 2 + 1, vTxid);
      }
      return hash(left, right);
    }

    // Whether the node is the parent of at least one matched txid.
    method HasMatch(height: nat, pos: nat, vMatch: seq<bool>) returns (fParentOfMatch: bool)
      requires |vMatch| == nTransactions
      ensures fParentOfMatch == ParentOfMatch(vMatch, height, pos)
    {
      fParentOfMatch := false;
      var p := pos * Pow2(height);
      var end := (pos + 1) * Pow2(height);
      while p < end && p < nTransactions
        invariant pos * Pow2(height) <= p
        invariant fParentOfMatch <==> exists q :: pos * Pow2(height) <= q < p && q < end && q < |vMatch| && vMatch[q]
        decreases nTransactions - p
      {
        fParentOfMatch := fParentOfMatch || vMatch[p];
        p := p + 1;
      }
    }

    method TraverseAndBuild(height: nat, pos: nat, vTxid: seq<Digest>, vMatch: seq<bool>)
      requires Node(|vTxid|, height, pos) && |vMatch| == |vTxid| == nTransactions
      modifies this`vBits, this`vHash
      ensures Streams() == Append(old(Streams()), Build(hash, vTxid, vMatch, height, pos))
      decreases height
    {
      hide ParentOfMatch, Pow2, CalcTreeWidth, Width, CalcHash, Node;
      var fParentOfMatch := HasMatch(height, pos, vMatch);
      vBits := vBits + [fParentOfMatch];
      if height == 0 || !fParentOfMatch {
        var digest := NodeHash(height, pos, vTxid);
        vHash := vHash + [digest];
      } else {
        Children(|vTxid|, height, pos);
        ghost var before := Streams();
        ghost var left := Build(hash, vTxid, vMatch, height - 1, pos * 2);
        TraverseAndBuild(height - 1, pos * 2, vTxid, vMatch);
        if pos * 2 + 1 < CalcTreeWidth(nTransactions, height - 1) {
          TraverseAndBuild(height - 1, pos * 2 + 1, vTxid, vMatch);
          AppendAssoc(before, left, Build(hash, vTxid, vMatch, height - 1, pos * 2 + 1));
        }
        AppendHead(old(Streams()), fParentOfMatch, BuildChildren(hash, vTxid, vMatch, height, pos));
      }
    }

    constructor FromTxids(hash: Hash, vTxid: seq<Digest>, vMatch: seq<bool>)
      requires 0 < |vTxid| <= 0x8000_0000 && |vMatch| == |vTxid|
      ensures this.hash == hash && nTransactions == |vTxid| && !fBad
      ensures Streams() == BuildAll(hash, vTxid, vMatch)
    {
      hide Build, Width, CalcTreeWidth, Pow2, Height;
      this.hash := hash;
      nTransactions := |vTxid|;
      vBits, vHash := [], [];
      fBad := false;
      new;
      RootExists(|vTxid|);
      var nHeight := ComputeHeight();
      TraverseAndBuild(nHeight, 0, vTxid, vMatch);
    }

    // What arrives from the network: the streams are arbitrary.
    constructor FromStream(hash: Hash, nTransactions: nat, vHash: seq<Digest>, vBytes: seq<nat>)
      ensures this.hash == hash && this.nTransactions == nTransactions && !fBad
      ensures Streams() == Partial(Unpack(vBytes), vHash)
    {
      this.hash := hash;
      this.nTransactions := nTransactions;
      this.vHash := vHash;
      fBad := false;
      var bits := UnpackBits(vBytes);
      vBits := bits;
    }

    method TraverseAndExtract(height: nat, pos: nat, nBitsUsed: nat, nHashUsed: nat, vMatch: seq<Digest>)
      returns (digest: Digest, bitsUsed: nat, hashUsed: nat, found: seq<Digest>)
      modifies this`fBad
      ensures (digest, Cursor(bitsUsed, hashUsed, found, fBad)) ==
                Extract(hash, nTransactions, Streams(), height, pos, Cursor(nBitsUsed, nHashUsed, vMatch, old(fBad)))
      decreases height, 1
    {
      hide CalcTreeWidth, Pow2;
      bitsUsed, hashUsed, found := nBitsUsed, nHashUsed, vMatch;
      if bitsUsed >= |vBits| {
        fBad := true;
        return NULL_DIGEST, bitsUsed, hashUsed, found;
      }
      var fParentOfMatch := vBits[bitsUsed];
      bitsUsed := Uint32(bitsUsed + 1);
      if height == 0 || !fParentOfMatch {
        if hashUsed >= |vHash| {
          fBad := true;
          return NULL_DIGEST, bitsUsed, hashUsed, found;
        }
        digest := vHash[hashUsed];
        hashUsed := Uint32(hashUsed + 1);
        if height == 0 && fParentOfMatch {
          found := found + [digest];
        }
      } else {
        hide ExtractChildren;
        digest, bitsUsed, hashUsed, found := DescendAndExtract(height, pos, bitsUsed, hashUsed, found);
      }
    }

    // The two subtrees of a flagged node.
    method DescendAndExtract(height: nat, pos: nat, nBitsUsed: nat, nHashUsed: nat, vMatch: seq<Digest>)
      returns (digest: Digest, bitsUsed: nat, hashUsed: nat, found: seq<Digest>)
      requires height > 0
      modifies this`fBad
      ensures (digest, Cursor(bitsUsed, hashUsed, found, fBad)) ==
                ExtractChildren(hash, nTransactions, Streams(), height, pos, Cursor(nBitsUsed, nHashUsed, vMatch, old(fBad)))
      decreases height, 0
    {
      hide CalcTreeWidth, Extract;
      var left, right;
      left, bitsUsed, hashUsed, found := TraverseAndExtract(height - 1, pos * 2, nBitsUsed, nHashUsed, vMatch);
      if pos * 2 + 1 < CalcTreeWidth(nTransactions, height - 1) {
        right, bitsUsed, hashUsed, found := TraverseAndExtract(height - 1, pos * 2 + 1, bitsUsed, hashUsed, found);
        if right == left {
          fBad := true;
        }
      } else {
        right := left;
      }
      digest := hash(left, right);
    }

    method ExtractMatches() returns (root: Digest, vMatch: seq<Digest>)
      requires nTransactions < 0x1_0000_0000
      modifies this`fBad
      ensures (root, vMatch, fBad) == MerkleTree.ExtractMatches(hash, nTransactions, Streams(), old(fBad))
    {
      hide Extract, CalcTreeWidth, Pow2, Height;
      vMatch := [];
      if nTransactions == 0 {
        return NULL_DIGEST, vMatch;
      }
      if |vHash| > Uint32(nTransactions * 2) {
        return NULL_DIGEST, vMatch;
      }
      if |vBits| < |vHash| {
        return NULL_DIGEST, vMatch;
      }
      var nHeight := ComputeHeight();
      var nBitsUsed, nHashUsed := 0, 0;
      root, nBitsUsed, nHashUsed, vMatch := TraverseAndExtract(nHeight, 0, 0, 0, vMatch);
      if fBad {
        return NULL_DIGEST, vMatch;
      }
      if Uint32(nBitsUsed + 7) / 8 != (|vBits| + 7) / 8 {
        return NULL_DIGEST, vMatch;
      }
      if nHashUsed != |vHash| {
        return NULL_DIGEST, vMatch;
      }
    }
  }

  // ----- the round trip

  // Reading back the whole tree, with or without padding.
  lemma WholeComplete(hash: Hash, txids: seq<Digest>, mask: seq<bool>, t: Partial)
    requires 0 < |txids| <= 0x8000_0000 && |mask| == |txids| && AllDistinct(txids)
    requires !Collision(hash, RootPairs(hash, txids))
    requires var b := BuildAll(hash, txids, mask);
             b.bits <= t.bits && t.hashes == b.hashes
    ensures var b, n := BuildAll(hash, txids, mask), |txids|;
            Extract(hash, n, t, Height(n), 0, Cursor(0, 0, [], false))
              == (Root(hash, txids), Cursor(|b.bits|, |b.hashes|, Matched(txids, mask, 0, n), false))
  {
    var n := |txids|;
    var b := BuildAll(hash, txids, mask);
    var c := Cursor(0, 0, [], false);
    SizeBounds(hash, txids, mask);
    RootExists(n);
    WholeTree(n);
    assert t.hashes[0..|b.hashes|] == b.hashes;
    assert t.bits[0..|b.bits|] == b.bits;
    hide AllDistinct, Build, Width, Pow2, CalcTreeWidth, Node, CalcHash, TreePairs, Collision, First, Last, Extract, Height;
    SubtreeComplete(hash, txids, mask, Height(n), 0, t, c, RootPairs(hash, txids));
    assert [] + Matched(txids, mask, 0, n) == Matched(txids, mask, 0, n);
  }

  // What the other side unpacks from the bytes written.
  ghost function Sent(hash: Hash, txids: seq<Digest>, mask: seq<bool>): Partial
    requires 0 < |txids| <= 0x8000_0000 && |mask| == |txids|
  {
    var b := BuildAll(hash, txids, mask);
    Partial(Unpack(Pack(b.bits)), b.hashes)
  }

  lemma TestsPass(n: nat, nBits: nat, nHashes: nat)
    requires 1 <= nHashes <= n <= 0x8000_0000 && nBits < 0x1_0000_0000
    ensures nHashes <= Uint32(2 * n) <==> n < 0x8000_0000
    ensures Uint32(nBits + 7) / 8 == (nBits + 7) / 8 <==> nBits <= 0xffff_fff8
  {
  }

  lemma SentIs(hash: Hash, txids: seq<Digest>, mask: seq<bool>)
    requires 0 < |txids| <= 0x8000_0000 && |mask| == |txids| && AllDistinct(txids)
    requires !Collision(hash, RootPairs(hash, txids))
    ensures var b, t, n := BuildAll(hash, txids, mask), Sent(hash, txids, mask), |txids|;
            && |t.bits| >= |b.bits| >= |b.hashes| == |t.hashes| >= 1
            && (|t.hashes| > Uint32(2 * n) <==> n == 0x8000_0000)
            && (Uint32(|b.bits| + 7) / 8 == (|t.bits| + 7) / 8 <==> |b.bits| <= 0xffff_fff8)
            && Extract(hash, n, t, Height(n), 0, Cursor(0, 0, [], false))
               == (Root(hash, txids), Cursor(|b.bits|, |b.hashes|, Matched(txids, mask, 0, n), false))
  {
    hide Unpack, Pack, AllDistinct, BuildAll, Pow2, CalcTreeWidth, Collision, Height, Extract, Uint32, Root, Matched;
    var b, t := BuildAll(hash, txids, mask), Sent(hash, txids, mask);
    SizeBounds(hash, txids, mask);
    UnpackPack(b.bits);
    TestsPass(|txids|, |b.bits|, |b.hashes|);
    assert t.bits[..|b.bits|] == b.bits;
    WholeComplete(hash, txids, mask, t);
  }

  // The answer, once the traversal is known not to set the flag.
  lemma Answer(hash: Hash, n: nat, t: Partial, h: nat)
    requires 0 < n < 0x1_0000_0000 && h == Height(n) && |t.bits| >= |t.hashes|
    ensures var (root, c) := Extract(hash, n, t, h, 0, Cursor(0, 0, [], false));
            !c.bad && c.nHashes == |t.hashes| ==>
              var r := ExtractMatches(hash, n, t, false);
              if |t.hashes| <= Uint32(2 * n) && Uint32(c.nBits + 7) / 8 == (|t.bits| + 7) / 8
              then r == (root, c.matched, false) else r.0 == NULL_DIGEST
  {
    hide Extract, Height, Uint32, CalcTreeWidth, Pow2;
  }

  // Main result: building, packing, unpacking and extracting gives the block's root and the
  // matched transactions in order, unless two different pairs hashed for the block's tree hash
  // alike, if and only if the 32-bit tests can pass: fewer than 2^31 transactions and at most
  // 2^32 - 8 flag bits.  Otherwise the null root comes back.
  lemma RoundTrip(hash: Hash, txids: seq<Digest>, mask: seq<bool>)
    requires 0 < |txids| <= 0x8000_0000 && |mask| == |txids| && AllDistinct(txids)
    requires !Collision(hash, RootPairs(hash, txids))
    ensures var r := ExtractMatches(hash, |txids|, Sent(hash, txids, mask), false);
            if |txids| < 0x8000_0000 && |BuildAll(hash, txids, mask).bits| <= 0xffff_fff8
            then r == (Root(hash, txids), Matched(txids, mask, 0, |txids|), false)
            else r.0 == NULL_DIGEST
  {
    hide Sent, BuildAll, Height, Extract, Uint32, Root, Matched, AllDistinct, Collision, RootPairs, CalcTreeWidth, Pow2,
      MerkleTree.ExtractMatches;
    SentIs(hash, txids, mask);
    Answer(hash, |txids|, Sent(hash, txids, mask), Height(|txids|));
  }

  // Every block of up to 2^31 - 19 transactions passes those tests.
  lemma RoundTripBelow(hash: Hash, txids: seq<Digest>, mask: seq<bool>)
    requires 0 < |txids| <= 0x7fff_ffed && |mask| == |txids| && AllDistinct(txids)
    requires !Collision(hash, RootPairs(hash, txids))
    ensures ExtractMatches(hash, |txids|, Sent(hash, txids, mask), false)
         == (Root(hash, txids), Matched(txids, mask, 0, |txids|), false)
  {
    RoundTrip(hash, txids, mask);
    SizeBounds(hash, txids, mask);
    hide Sent, BuildAll, Extract, Uint32, Root, Matched, Collision;
  }

  // At 2^31 transactions the product in the test on the number of hashes is zero, so that
  // every proof with a hash is rejected, whatever it says.
  lemma RejectedAtLimit(hash: Hash, t: Partial, wasBad: bool)
    requires t.hashes != []
    ensures ExtractMatches(hash, 0x8000_0000, t, wasBad) == (NULL_DIGEST, [], wasBad)
  {
    hide Extract, Height, Pow2, CalcTreeWidth;
  }
}
