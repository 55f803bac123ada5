// What an accepted proof cannot be: one with equal siblings, or one with something appended;
// and that the hash of a node is that of the tree built level by level.
module MerkleAccept {
  import opened Bits
  import opened MerkleTree
  import opened MerkleProofs

  // ----- no equal siblings

  // The node has a right child.
  predicate HasRight(n: nat, p: Hashed) {
    p.height > 0 && 2 * p.pos + 1 < CalcTreeWidth(n, p.height - 1)
  }

  ghost predicate NoTwins(n: nat, pairs: Pairs) {
    forall p :: p in pairs && p.left == p.right ==> !HasRight(n, p)
  }

  lemma {:induction false} SubtreeNoTwins(hash: Hash, n: nat, t: Partial, h: nat, pos: nat, c: Cursor)
    requires !Extract(hash, n, t, h, pos, c).1.bad
    ensures NoTwins(n, ExtractPairs(hash, n, t, h, pos, c))
    decreases h
  {
    hide CalcTreeWidth, Uint32;
    if h > 0 && c.nBits < |t.bits| && t.bits[c.nBits] {
      var c1 := c.(nBits := Uint32(c.nBits + 1));
      var (left, c2) := Extract(hash, n, t, h - 1, 2 * pos, c1);
      SubtreeNoTwins(hash, n, t, h - 1, 2 * pos, c1);
      if 2 * pos + 1 < CalcTreeWidth(n, h - 1) {
        SubtreeNoTwins(hash, n, t, h - 1, 2 * pos + 1, c2);
      }
    }
  }

  // The nodes hashed lie under the node looked at.
  ghost predicate Under(p: Hashed, h: nat, pos: nat) {
    1 <= p.height <= h && pos * Pow2(h - p.height) <= p.pos < (pos + 1) * Pow2(h - p.height)
  }

  lemma UnderChild(p: Hashed, h: nat, pos: nat)
    requires h > 0
    ensures Under(p, h - 1, 2 * pos) || Under(p, h - 1, 2 * pos + 1) ==> Under(p, h, pos)
    ensures p.height == h && p.pos == pos ==> Under(p, h, pos)
  {
    if 1 <= p.height <= h - 1 {
      var q := Pow2(h - 1 - p.height);
      assert Pow2(h - p.height) == 2 * q;
      MulTwo(pos, q);
      MulTwo(pos + 1, q);
      MulPlus(2 * pos, 1, q);
      MulPlus(2 * pos + 1, 1, q);
    }
  }

  lemma {:induction false} PairsUnder(hash: Hash, n: nat, t: Partial, h: nat, pos: nat, c: Cursor)
    ensures forall p :: p in ExtractPairs(hash, n, t, h, pos, c) ==> Under(p, h, pos)
    decreases h
  {
    hide CalcTreeWidth, Uint32, Pow2, Extract, Under;
    if h > 0 && c.nBits < |t.bits| && t.bits[c.nBits] {
      var c1 := c.(nBits := Uint32(c.nBits + 1));
      var c2 := Extract(hash, n, t, h - 1, 2 * pos, c1).1;
      PairsUnder(hash, n, t, h - 1, 2 * pos, c1);
      PairsUnder(hash, n, t, h - 1, 2 * pos + 1, c2);
      forall p | p in ExtractPairs(hash, n, t, h, pos, c)
        ensures Under(p, h, pos)
      {
        UnderChild(p, h, pos);
      }
    }
  }

  // Main result: whatever the streams and the count are, when a root comes out, two equal
  // hashes were only ever paired where a node has no right child.
  lemma AcceptedHasNoTwins(hash: Hash, n: nat, t: Partial, wasBad: bool)
    requires n < 0x1_0000_0000 && ExtractMatches(hash, n, t, wasBad).0 != NULL_DIGEST
    ensures NoTwins(n, StreamPairs(hash, n, t, wasBad))
  {
    hide Extract, CalcTreeWidth, Uint32, Height, NoTwins, ExtractPairs;
    SubtreeNoTwins(hash, n, t, Height(n), 0, Cursor(0, 0, [], wasBad));
  }

  lemma PowerWidth(k: nat, j: nat)
    requires j <= k <= 31
    ensures Pow2(k) < 0x1_0000_0000 && CalcTreeWidth(Pow2(k), j) == Pow2(k - j)
  {
    Pow2Of31();
    Pow2Mono(k, 31);
    Pow2Mono(j, k);
    Pow2Add(k - j, j);
    DivUnique(Pow2(k) + Pow2(j) - 1, Pow2(j), Pow2(k - j), Pow2(j) - 1);
  }

  lemma PowerHeight(k: nat)
    requires k <= 31
    ensures Pow2(k) < 0x1_0000_0000 && Height(Pow2(k)) == k
  {
    PowerWidth(k, k);
    forall j: nat | j < k
      ensures CalcTreeWidth(Pow2(k), j) > 1
    {
      PowerWidth(k, j);
      Pow2Mono(1, k - j);
    }
    hide CalcTreeWidth;
    var top := Height(Pow2(k));
    assert Pow2(0) == 1;
    assert top >= k;
    assert top > k ==> CalcTreeWidth(Pow2(k), k) > 1;
  }

  // With a power of two of transactions every node has a right child, so no two equal hashes
  // were paired at all.
  lemma PowerHasNoTwins(hash: Hash, k: nat, t: Partial, wasBad: bool)
    requires k <= 31 && Pow2(k) < 0x1_0000_0000 && ExtractMatches(hash, Pow2(k), t, wasBad).0 != NULL_DIGEST
    ensures forall p :: p in StreamPairs(hash, Pow2(k), t, wasBad) ==> p.left != p.right
  {
    hide Extract, CalcTreeWidth, Uint32, Height, ExtractPairs, ExtractMatches;
    var n := Pow2(k);
    PowerHeight(k);
    AcceptedHasNoTwins(hash, n, t, wasBad);
    PairsUnder(hash, n, t, k, 0, Cursor(0, 0, [], wasBad));
    forall p | p in StreamPairs(hash, n, t, wasBad)
      ensures HasRight(n, p)
    {
      assert Under(p, k, 0);
      PowerWidth(k, p.height - 1);
      assert Pow2(k - (p.height - 1)) == 2 * Pow2(k - p.height);
    }
  }

  // Two transactions with one id and every flag set: both would match, and nothing is accepted.
  lemma TwinsRejected(hash: Hash, x: Digest)
    ensures ExtractMatches(hash, 2, Partial([true, true, true, false, false, false, false, false], [x, x]), false)
         == (NULL_DIGEST, [x, x], true)
  {
    PowerWidth(1, 0);
    PowerHeight(1);
    assert Pow2(1) == 2 && Pow2(0) == 1;
    hide CalcTreeWidth, Height, Pow2, Uint32, Extract, ExtractChildren;
    var t := Partial([true, true, true, false, false, false, false, false], [x, x]);
    LeafTaken(hash, 2, t, 0, Cursor(1, 0, [], false));
    LeafTaken(hash, 2, t, 1, Cursor(2, 1, [x], false));
    assert [] + [x] == [x] && [x] + [x] == [x, x];
    ParentTaken(hash, 2, t, 1, 0, Cursor(0, 0, [], false));
  }

  lemma LeafTaken(hash: Hash, n: nat, t: Partial, pos: nat, c: Cursor)
    requires c.nBits < |t.bits| <= 100 && t.bits[c.nBits] && c.nHashes < |t.hashes| <= 100
    ensures var x := t.hashes[c.nHashes];
            Extract(hash, n, t, 0, pos, c) == (x, Cursor(c.nBits + 1, c.nHashes + 1, c.matched + [x], c.bad))
  {
  }

  lemma ParentTaken(hash: Hash, n: nat, t: Partial, h: nat, pos: nat, c: Cursor)
    requires h > 0 && c.nBits < |t.bits| <= 100 && t.bits[c.nBits] && 2 * pos + 1 < CalcTreeWidth(n, h - 1)
    ensures var (left, c1) := Extract(hash, n, t, h - 1, 2 * pos, c.(nBits := c.nBits + 1));
            var (right, c2) := Extract(hash, n, t, h - 1, 2 * pos + 1, c1);
            left == right ==> Extract(hash, n, t, h, pos, c) == (hash(left, right), c2.(bad := true))
  {
    hide CalcTreeWidth;
  }

  // ----- nothing can be appended

  lemma {:induction false} MoreSame(hash: Hash, n: nat, t: Partial, more: Partial, h: nat, pos: nat, c: Cursor)
    requires !Extract(hash, n, t, h, pos, c).1.bad
    ensures Extract(hash, n, Append(t, more), h, pos, c) == Extract(hash, n, t, h, pos, c)
    decreases h
  {
    hide CalcTreeWidth, Uint32;
    if h > 0 && c.nBits < |t.bits| && t.bits[c.nBits] {
      var c1 := c.(nBits := Uint32(c.nBits + 1));
      var c2 := Extract(hash, n, t, h - 1, 2 * pos, c1).1;
      if 2 * pos + 1 < CalcTreeWidth(n, h - 1) {
        MoreSame(hash, n, t, more, h - 1, 2 * pos + 1, c2);
      }
      MoreSame(hash, n, t, more, h - 1, 2 * pos, c1);
    }
  }

  // A proof that is accepted starts from no error and at least one transaction, and is no
  // longer accepted with a hash or a byte of flags appended.
  lemma AcceptedIsTight(hash: Hash, n: nat, t: Partial, more: Partial, wasBad: bool)
    requires n < 0x1_0000_0000 && ExtractMatches(hash, n, t, wasBad).0 != NULL_DIGEST
    ensures !wasBad && 0 < n && |t.hashes| <= |t.bits|
    ensures more.hashes != [] || |more.bits| >= 8 ==> ExtractMatches(hash, n, Append(t, more), wasBad).0 == NULL_DIGEST
  {
    hide CalcTreeWidth, Uint32, Height, Extract;
    var c := Cursor(0, 0, [], wasBad);
    MoreSame(hash, n, t, more, Height(n), 0, c);
    BadStays(hash, n, t, Height(n), 0, c);
    BytesGrow(|t.bits|, |more.bits|);
  }

  lemma BytesGrow(a: nat, b: nat)
    ensures b >= 8 ==> (a + b + 7) / 8 > (a + 7) / 8
  {
  }

  lemma BadStays(hash: Hash, n: nat, t: Partial, h: nat, pos: nat, c: Cursor)
    ensures c.bad ==> Extract(hash, n, t, h, pos, c).1.bad
  {
  }

  // ----- the tree level by level

  // One level up: neighbours are hashed together, a last one without a neighbour with itself.
  ghost function LevelUp(hash: Hash, level: seq<Digest>): (up: seq<Digest>)
    ensures |up| == (|level| + 1) / 2
  {
    seq((|level| + 1) / 2, i requires 0 <= i < (|level| + 1) / 2 =>
      hash(level[2 * i], if 2 * i + 1 < |level| then level[2 * i + 1] else level[2 * i]))
  }

  ghost function Level(hash: Hash, txids: seq<Digest>, h: nat): seq<Digest> {
    if h == 0 then txids else LevelUp(hash, Level(hash, txids, h - 1))
  }

  lemma {:induction false} LevelWidth(hash: Hash, txids: seq<Digest>, h: nat)
    ensures |Level(hash, txids, h)| == Width(|txids|, h)
  {
    hide Width;
    if h == 0 {
      WidthZero(|txids|);
    } else {
      LevelWidth(hash, txids, h - 1);
      WidthHalves(|txids|, h);
    }
  }

  lemma LevelZero(hash: Hash, txids: seq<Digest>)
    ensures Level(hash, txids, 0) == txids
  {
  }

  lemma LevelAt(hash: Hash, txids: seq<Digest>, h: nat, pos: nat)
    requires h > 0 && 2 * pos < |Level(hash, txids, h - 1)|
    ensures var below := Level(hash, txids, h - 1);
            pos < |Level(hash, txids, h)|
            && Level(hash, txids, h)[pos] == hash(below[2 * pos], if 2 * pos + 1 < |below| then below[2 * pos + 1] else below[2 * pos])
  {
  }

  lemma {:induction false} NodeInLevel(hash: Hash, txids: seq<Digest>, h: nat, pos: nat)
    requires Node(|txids|, h, pos)
    ensures pos < |Level(hash, txids, h)| && CalcHash(hash, txids, h, pos) == Level(hash, txids, h)[pos]
    decreases h
  {
    hide Width, CalcTreeWidth, Pow2, Level;
    LevelWidth(hash, txids, h);
    if h == 0 {
      WidthZero(|txids|);
      LevelZero(hash, txids);
    } else {
      Children(|txids|, h, pos);
      LevelWidth(hash, txids, h - 1);
      NodeInLevel(hash, txids, h - 1, 2 * pos);
      LevelAt(hash, txids, h, pos);
      if 2 * pos + 1 < CalcTreeWidth(|txids|, h - 1) {
        NodeInLevel(hash, txids, h - 1, 2 * pos + 1);
      }
    }
  }

  // The root of the partial tree is the last level of the block's Merkle tree.
  lemma RootIsLastLevel(hash: Hash, txids: seq<Digest>)
    requires 0 < |txids| <= 0x8000_0000
    ensures Level(hash, txids, Height(|txids|)) == [Root(hash, txids)]
  {
    var h := Height(|txids|);
    RootExists(|txids|);
    LevelWidth(hash, txids, h);
    NodeInLevel(hash, txids, h, 0);
  }
}
