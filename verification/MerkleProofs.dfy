// What the partial Merkle tree guarantees: nothing outside the block can be extracted from
// a forged stream, everything matched comes back, and how long the streams are.
module MerkleProofs {
  import opened Bits
  import opened MerkleTree

  // ----- soundness

  // `found` are transactions of the block at the ascending places idx, all in lo..hi.
  ghost predicate Places(txids: seq<Digest>, found: seq<Digest>, idx: seq<nat>, lo: nat, hi: nat) {
    && |found| == |idx|
    && (forall i :: 0 <= i < |idx| ==> lo <= idx[i] < hi && idx[i] < |txids| && found[i] == txids[idx[i]])
    && (forall i, j :: 0 <= i < j < |idx| ==> idx[i] < idx[j])
  }

  ghost predicate InBlockOrder(txids: seq<Digest>, found: seq<Digest>) {
    exists idx: seq<nat> :: Places(txids, found, idx, 0, |txids|)
  }

  lemma SamePair(hash: Hash, hashed: Pairs, p: Hashed, q: Hashed)
    requires !Collision(hash, hashed) && p in hashed && q in hashed && hash(p.left, p.right) == hash(q.left, q.right)
    ensures p.left == q.left && p.right == q.right
  {
  }

  lemma PlacesConcat(txids: seq<Digest>, f1: seq<Digest>, i1: seq<nat>, f2: seq<Digest>, i2: seq<nat>, lo: nat, mid: nat, hi: nat)
    requires Places(txids, f1, i1, lo, mid) && Places(txids, f2, i2, mid, hi) && lo <= mid <= hi
    ensures Places(txids, f1 + f2, i1 + i2, lo, hi)
  {
  }

  lemma NoPlaces(txids: seq<Digest>, lo: nat, hi: nat)
    ensures Places(txids, [], [], lo, hi)
  {
  }

  lemma OnePlace(txids: seq<Digest>, pos: nat)
    requires pos < |txids|
    ensures Places(txids, [txids[pos]], [pos], pos, pos + 1)
  {
  }

  // The first leaf under a node.
  ghost function First(h: nat, pos: nat): nat {
    pos * Pow2(h)
  }

  // A subtree that extracts to the true hash of its node yields only leaves of that node.
  lemma {:induction false} SubtreeSound(hash: Hash, txids: seq<Digest>, t: Partial, h: nat, pos: nat, c: Cursor, hashed: Pairs)
    returns (found: seq<Digest>, idx: seq<nat>)
    requires Node(|txids|, h, pos) && TreeHashed(hash, txids, h, pos, hashed)
    requires ExtractPairs(hash, |txids|, t, h, pos, c) <= hashed
    requires !Extract(hash, |txids|, t, h, pos, c).1.bad
    requires Extract(hash, |txids|, t, h, pos, c).0 == CalcHash(hash, txids, h, pos)
    ensures Extract(hash, |txids|, t, h, pos, c).1.matched == c.matched + found
    ensures Places(txids, found, idx, First(h, pos), First(h, pos + 1))
    decreases h, 1
  {
    var n := |txids|;
    if h == 0 {
      WidthZero(n);
      if c.nBits < |t.bits| && t.bits[c.nBits] && c.nHashes < |t.hashes| {
        OnePlace(txids, pos);
        found, idx := [txids[pos]], [pos];
      } else {
        found, idx := [], [];
      }
    } else if c.nBits < |t.bits| && t.bits[c.nBits] {
      found, idx := ChildrenSound(hash, txids, t, h, pos, c.(nBits := Uint32(c.nBits + 1)), hashed);
    } else {
      NoPlaces(txids, First(h, pos), First(h, pos + 1));
      found, idx := [], [];
    }
  }

  lemma {:induction false} ChildrenSound(hash: Hash, txids: seq<Digest>, t: Partial, h: nat, pos: nat, c1: Cursor, hashed: Pairs)
    returns (found: seq<Digest>, idx: seq<nat>)
    requires Node(|txids|, h, pos) && h > 0 && TreeHashed(hash, txids, h, pos, hashed)
    requires ChildrenPairs(hash, |txids|, t, h, pos, c1) <= hashed
    requires !ExtractChildren(hash, |txids|, t, h, pos, c1).1.bad
    requires ExtractChildren(hash, |txids|, t, h, pos, c1).0 == CalcHash(hash, txids, h, pos)
    ensures ExtractChildren(hash, |txids|, t, h, pos, c1).1.matched == c1.matched + found
    ensures Places(txids, found, idx, First(h, pos), First(h, pos + 1))
    decreases h, 0
  {
    hide Pow2, Width, CalcTreeWidth, Node, Places, Extract, First, CalcHash, TreeHashed, ExtractPairs, ChildrenPairs;
    var n := |txids|;
    Children(n, h, pos);
    FirstSplit(h, pos);
    ChildrenTrue(hash, txids, t, h, pos, c1, hashed);
    found, idx := SubtreeSound(hash, txids, t, h - 1, 2 * pos, c1, hashed);
    if 2 * pos + 1 < CalcTreeWidth(n, h - 1) {
      var c2 := Extract(hash, n, t, h - 1, 2 * pos, c1).1;
      var f2, i2 := SubtreeSound(hash, txids, t, h - 1, 2 * pos + 1, c2, hashed);
      PlacesConcat(txids, found, idx, f2, i2, First(h, pos), First(h - 1, 2 * pos + 1), First(h, pos + 1));
      assert c1.matched + found + f2 == c1.matched + (found + f2);
      found, idx := found + f2, idx + i2;
    } else {
      PlacesWiden(txids, found, idx, First(h, pos), First(h - 1, 2 * pos + 1), First(h, pos + 1));
    }
  }

  lemma FirstSplit(h: nat, pos: nat)
    requires h > 0
    ensures First(h, pos) == First(h - 1, 2 * pos) <= First(h - 1, 2 * pos + 1) <= First(h, pos + 1) == First(h - 1, 2 * pos + 2)
  {
    var p := Pow2(h - 1);
    MulTwo(pos, p);
    MulTwo(pos + 1, p);
    MulMono(2 * pos, 2 * pos + 1, p);
    MulMono(2 * pos + 1, 2 * pos + 2, p);
  }

  // When a node extracts to its true hash, so do its children.
  lemma ChildrenTrue(hash: Hash, txids: seq<Digest>, t: Partial, h: nat, pos: nat, c1: Cursor, hashed: Pairs)
    requires Node(|txids|, h, pos) && h > 0 && TreeHashed(hash, txids, h, pos, hashed)
    requires ChildrenPairs(hash, |txids|, t, h, pos, c1) <= hashed
    requires ExtractChildren(hash, |txids|, t, h, pos, c1).0 == CalcHash(hash, txids, h, pos)
    ensures Node(|txids|, h - 1, 2 * pos) && TreeHashed(hash, txids, h - 1, 2 * pos, hashed)
    ensures ExtractPairs(hash, |txids|, t, h - 1, 2 * pos, c1) <= hashed
    ensures var (left, c2) := Extract(hash, |txids|, t, h - 1, 2 * pos, c1);
            && left == CalcHash(hash, txids, h - 1, 2 * pos)
            && (2 * pos + 1 < CalcTreeWidth(|txids|, h - 1) ==>
                  && Node(|txids|, h - 1, 2 * pos + 1) && TreeHashed(hash, txids, h - 1, 2 * pos + 1, hashed)
                  && ExtractPairs(hash, |txids|, t, h - 1, 2 * pos + 1, c2) <= hashed
                  && Extract(hash, |txids|, t, h - 1, 2 * pos + 1, c2).0 == CalcHash(hash, txids, h - 1, 2 * pos + 1))
  {
    hide Collision, Pow2, Width, CalcTreeWidth, Node, Extract, ExtractPairs;
    var n := |txids|;
    Children(n, h, pos);
    var (left, c2) := Extract(hash, n, t, h - 1, 2 * pos, c1);
    var trueLeft := CalcHash(hash, txids, h - 1, 2 * pos);
    if 2 * pos + 1 < CalcTreeWidth(n, h - 1) {
      var right := Extract(hash, n, t, h - 1, 2 * pos + 1, c2).0;
      SamePair(hash, hashed, Hashed(h, pos, left, right), Hashed(h, pos, trueLeft, CalcHash(hash, txids, h - 1, 2 * pos + 1)));
    } else {
      SamePair(hash, hashed, Hashed(h, pos, left, left), Hashed(h, pos, trueLeft, trueLeft));
    }
  }

  lemma PlacesWiden(txids: seq<Digest>, found: seq<Digest>, idx: seq<nat>, lo: nat, mid: nat, hi: nat)
    requires Places(txids, found, idx, lo, mid) && mid <= hi
    ensures Places(txids, found, idx, lo, hi)
  {
  }

  ghost function Root(hash: Hash, txids: seq<Digest>): Digest
    requires 0 < |txids| <= 0x8000_0000
  {
    RootExists(|txids|);
    CalcHash(hash, txids, Height(|txids|), 0)
  }

  // What is hashed to get the root of the block, and what ExtractMatches hashes.
  ghost function RootPairs(hash: Hash, txids: seq<Digest>): Pairs
    requires 0 < |txids| <= 0x8000_0000
  {
    RootExists(|txids|);
    TreePairs(hash, txids, Height(|txids|), 0)
  }

  ghost function StreamPairs(hash: Hash, n: nat, t: Partial, wasBad: bool): Pairs
    requires n < 0x1_0000_0000
  {
    ExtractPairs(hash, n, t, Height(n), 0, Cursor(0, 0, [], wasBad))
  }

  // Main result: whatever the bit and hash streams are, if the block's transaction count is
  // right and the non-null root of the block comes out, then every extracted match is a
  // transaction of the block, in block order, or two different pairs among those hashed for
  // the block and for the stream hash alike.
  lemma ExtractIsSound(hash: Hash, txids: seq<Digest>, t: Partial, wasBad: bool)
    requires 0 < |txids| <= 0x8000_0000
    requires ExtractMatches(hash, |txids|, t, wasBad).0 == Root(hash, txids) != NULL_DIGEST
    ensures InBlockOrder(txids, ExtractMatches(hash, |txids|, t, wasBad).1)
         || Collision(hash, RootPairs(hash, txids) + StreamPairs(hash, |txids|, t, wasBad))
  {
    var n := |txids|;
    RootExists(n);
    var hashed := RootPairs(hash, txids) + StreamPairs(hash, n, t, wasBad);
    if !Collision(hash, hashed) {
      var found, idx := SubtreeSound(hash, txids, t, Height(n), 0, Cursor(0, 0, [], wasBad), hashed);
      assert ExtractMatches(hash, n, t, wasBad).1 == [] + found == found;
      assert Places(txids, found, idx, 0, |txids|);
    }
  }

  // ----- completeness

  function Min(a: nat, b: nat): nat {
    if a < b then a else b
  }

  // The matched transactions in lo..hi, in block order.
  function Matched(txids: seq<Digest>, mask: seq<bool>, lo: nat, hi: nat): seq<Digest>
    requires lo <= hi <= |txids| == |mask|
  {
    if lo == hi then []
    else Matched(txids, mask, lo, hi - 1) + if mask[hi - 1] then [txids[hi - 1]] else []
  }

  lemma {:induction false} MatchedConcat(txids: seq<Digest>, mask: seq<bool>, lo: nat, mid: nat, hi: nat)
    requires lo <= mid <= hi <= |txids| == |mask|
    ensures Matched(txids, mask, lo, hi) == Matched(txids, mask, lo, mid) + Matched(txids, mask, mid, hi)
    decreases hi
  {
    if mid < hi {
      MatchedConcat(txids, mask, lo, mid, hi - 1);
    }
  }

  lemma {:induction false} NoneMatched(txids: seq<Digest>, mask: seq<bool>, lo: nat, hi: nat)
    requires lo <= hi <= |txids| == |mask| && forall p :: lo <= p < hi ==> !mask[p]
    ensures Matched(txids, mask, lo, hi) == []
    decreases hi
  {
    if lo < hi {
      NoneMatched(txids, mask, lo, hi - 1);
    }
  }

  ghost predicate AllDistinct(txids: seq<Digest>) {
    forall i, j :: 0 <= i < j < |txids| ==> txids[i] != txids[j]
  }

  // Nodes of one height with the same hash start with the same leaf.
  lemma {:induction false} SameHashSameNode(hash: Hash, txids: seq<Digest>, h: nat, p: nat, q: nat, hashed: Pairs)
    requires Node(|txids|, h, p) && Node(|txids|, h, q) && AllDistinct(txids)
    requires TreeHashed(hash, txids, h, p, hashed) && TreeHashed(hash, txids, h, q, hashed)
    requires CalcHash(hash, txids, h, p) == CalcHash(hash, txids, h, q)
    ensures p == q
    decreases h
  {
    var n := |txids|;
    if h == 0 {
      WidthZero(n);
    } else {
      Children(n, h, p);
      Children(n, h, q);
      SamePair(hash, hashed,
               Hashed(h, p, CalcHash(hash, txids, h - 1, 2 * p), RightHash(hash, txids, h, p)),
               Hashed(h, q, CalcHash(hash, txids, h - 1, 2 * q), RightHash(hash, txids, h, q)));
      SameHashSameNode(hash, txids, h - 1, 2 * p, 2 * q, hashed);
    }
  }

  ghost function RightHash(hash: Hash, txids: seq<Digest>, h: nat, pos: nat): Digest
    requires Node(|txids|, h, pos) && h > 0
  {
    Children(|txids|, h, pos);
    if 2 * pos + 1 < CalcTreeWidth(|txids|, h - 1) then CalcHash(hash, txids, h - 1, 2 * pos + 1)
    else CalcHash(hash, txids, h - 1, 2 * pos)
  }

  // The streams go on with b, within what the 32-bit counters can count.
  ghost predicate Holds(t: Partial, c: Cursor, b: Partial) {
    && c.nBits + |b.bits| < 0x1_0000_0000 && c.nHashes + |b.hashes| < 0x1_0000_0000
    && c.nBits + |b.bits| <= |t.bits| && t.bits[c.nBits..c.nBits + |b.bits|] == b.bits
    && c.nHashes + |b.hashes| <= |t.hashes| && t.hashes[c.nHashes..c.nHashes + |b.hashes|] == b.hashes
  }

  function Advance(c: Cursor, b: Partial, found: seq<Digest>): Cursor {
    Cursor(c.nBits + |b.bits|, c.nHashes + |b.hashes|, c.matched + found, c.bad)
  }

  lemma HoldsParts(t: Partial, c: Cursor, a: Partial, b: Partial, found: seq<Digest>)
    requires Holds(t, c, Append(a, b))
    ensures Holds(t, c, a) && Holds(t, Advance(c, a, found), b)
  {
    var ab := Append(a, b);
    assert t.bits[c.nBits..c.nBits + |ab.bits|][..|a.bits|] == t.bits[c.nBits..c.nBits + |a.bits|];
    assert t.bits[c.nBits..c.nBits + |ab.bits|][|a.bits|..] == t.bits[c.nBits + |a.bits|..c.nBits + |ab.bits|];
    assert t.hashes[c.nHashes..c.nHashes + |ab.hashes|][..|a.hashes|] == t.hashes[c.nHashes..c.nHashes + |a.hashes|];
    assert t.hashes[c.nHashes..c.nHashes + |ab.hashes|][|a.hashes|..] == t.hashes[c.nHashes + |a.hashes|..c.nHashes + |ab.hashes|];
  }

  // The leaves under a node.
  ghost function Last(n: nat, h: nat, pos: nat): nat {
    Min(n, (pos + 1) * Pow2(h))
  }

  lemma LeavesUnder(n: nat, h: nat, pos: nat)
    requires Node(n, h, pos)
    ensures First(h, pos) < Last(n, h, pos) <= n
    ensures h == 0 ==> First(h, pos) == pos && Last(n, h, pos) == pos + 1
  {
    NodeHasLeaf(n, h, pos);
    MulPlus(pos, 1, Pow2(h));
  }

  // The leaves of the children make up those of the node.
  lemma LeavesSplit(n: nat, h: nat, pos: nat)
    requires Node(n, h, pos) && h > 0
    ensures First(h - 1, 2 * pos) == First(h, pos)
    ensures 2 * pos + 1 < CalcTreeWidth(n, h - 1) ==>
              Last(n, h - 1, 2 * pos) == First(h - 1, 2 * pos + 1) && Last(n, h - 1, 2 * pos + 1) == Last(n, h, pos)
    ensures 2 * pos + 1 >= CalcTreeWidth(n, h - 1) ==> Last(n, h - 1, 2 * pos) == Last(n, h, pos)
  {
    Children(n, h, pos);
    NodeHasLeaf(n, h - 1, 2 * pos + 1);
  }

  lemma FlagMeansMatch(txids: seq<Digest>, mask: seq<bool>, h: nat, pos: nat)
    requires Node(|txids|, h, pos) && |mask| == |txids|
    ensures First(h, pos) <= Last(|txids|, h, pos) <= |txids|
    ensures !ParentOfMatch(mask, h, pos) ==> Matched(txids, mask, First(h, pos), Last(|txids|, h, pos)) == []
    ensures h == 0 && ParentOfMatch(mask, h, pos) ==> pos < |txids| && Matched(txids, mask, pos, pos + 1) == [txids[pos]]
  {
    LeavesUnder(|txids|, h, pos);
    if !ParentOfMatch(mask, h, pos) {
      NoneMatched(txids, mask, First(h, pos), Last(|txids|, h, pos));
    } else if h == 0 {
      assert Matched(txids, mask, pos, pos) == [];
    }
  }

  lemma HoldsHead(t: Partial, c: Cursor, flag: bool, rest: Partial)
    requires Holds(t, c, Append(Partial([flag], []), rest))
    ensures c.nBits < |t.bits| && t.bits[c.nBits] == flag && Uint32(c.nBits + 1) == c.nBits + 1
    ensures Holds(t, c.(nBits := c.nBits + 1), rest)
  {
    HoldsParts(t, c, Partial([flag], []), rest, []);
    assert c.matched + [] == c.matched;
    assert t.bits[c.nBits..c.nBits + 1][0] == flag;
  }

  lemma AdvanceHead(c: Cursor, flag: bool, rest: Partial, found: seq<Digest>)
    ensures Advance(c.(nBits := c.nBits + 1), rest, found) == Advance(c, Append(Partial([flag], []), rest), found)
  {
  }

  lemma AdvanceTwice(c: Cursor, a: Partial, b: Partial, f: seq<Digest>, g: seq<Digest>)
    ensures Advance(Advance(c, a, f), b, g) == Advance(c, Append(a, b), f + g)
  {
  }

  // A node whose hash is stored.
  lemma StoredComplete(hash: Hash, n: nat, t: Partial, h: nat, pos: nat, c: Cursor, flag: bool, digest: Digest)
    requires Holds(t, c, Partial([flag], [digest])) && (h == 0 || !flag)
    ensures Extract(hash, n, t, h, pos, c) == (digest, Advance(c, Partial([flag], [digest]), if flag then [digest] else []))
  {
    assert t.bits[c.nBits..c.nBits + 1][0] == flag;
    assert t.hashes[c.nHashes..c.nHashes + 1][0] == digest;
    assert c.matched + [] == c.matched;
  }

  // Reading what was built gives back the node's hash and the matches under it.
  lemma {:induction false} SubtreeComplete(hash: Hash, txids: seq<Digest>, mask: seq<bool>, h: nat, pos: nat, t: Partial, c: Cursor, hashed: Pairs)
    requires Node(|txids|, h, pos) && |mask| == |txids| && AllDistinct(txids)
    requires TreeHashed(hash, txids, h, pos, hashed)
    requires Holds(t, c, Build(hash, txids, mask, h, pos))
    ensures First(h, pos) <= Last(|txids|, h, pos) <= |txids|
    ensures Extract(hash, |txids|, t, h, pos, c) ==
              (CalcHash(hash, txids, h, pos),
               Advance(c, Build(hash, txids, mask, h, pos), Matched(txids, mask, First(h, pos), Last(|txids|, h, pos))))
    decreases h, 1
  {
    var n := |txids|;
    var b := Build(hash, txids, mask, h, pos);
    var flag := ParentOfMatch(mask, h, pos);
    LeavesUnder(n, h, pos);
    FlagMeansMatch(txids, mask, h, pos);
    hide TreeHashed, Uint32, Pow2, Width, CalcTreeWidth, Node, ParentOfMatch, Matched, First, Last, AllDistinct;
    var found := Matched(txids, mask, First(h, pos), Last(n, h, pos));
    if h == 0 || !flag {
      StoredComplete(hash, n, t, h, pos, c, flag, CalcHash(hash, txids, h, pos));
      hide CalcHash, Extract, Holds;
    } else {
      var below := BuildChildren(hash, txids, mask, h, pos);
      assert b == Append(Partial([flag], []), below);
      HoldsHead(t, c, flag, below);
      hide Build, BuildChildren, CalcHash, Holds, Append, Advance, ExtractChildren;
      ChildrenComplete(hash, txids, mask, h, pos, t, c.(nBits := c.nBits + 1), hashed);
      AdvanceHead(c, flag, below, found);
    }
  }

  lemma {:induction false} ChildrenComplete(hash: Hash, txids: seq<Digest>, mask: seq<bool>, h: nat, pos: nat, t: Partial, c1: Cursor, hashed: Pairs)
    requires Node(|txids|, h, pos) && |mask| == |txids| && AllDistinct(txids) && h > 0
    requires TreeHashed(hash, txids, h, pos, hashed)
    requires Holds(t, c1, BuildChildren(hash, txids, mask, h, pos))
    ensures First(h, pos) <= Last(|txids|, h, pos) <= |txids|
    ensures ExtractChildren(hash, |txids|, t, h, pos, c1) ==
              (CalcHash(hash, txids, h, pos),
               Advance(c1, BuildChildren(hash, txids, mask, h, pos), Matched(txids, mask, First(h, pos), Last(|txids|, h, pos))))
    decreases h, 0
  {
    hide Collision, Pow2, Width, CalcTreeWidth, Node, Matched, First, Last, AllDistinct, Holds, Extract, Build;
    var n := |txids|;
    Children(n, h, pos);
    LeavesUnder(n, h, pos);
    LeavesSplit(n, h, pos);
    var left := Build(hash, txids, mask, h - 1, 2 * pos);
    if 2 * pos + 1 < CalcTreeWidth(n, h - 1) {
      var right := Build(hash, txids, mask, h - 1, 2 * pos + 1);
      LeavesUnder(n, h - 1, 2 * pos);
      LeavesUnder(n, h - 1, 2 * pos + 1);
      var found := Matched(txids, mask, First(h, pos), Last(n, h - 1, 2 * pos));
      HoldsParts(t, c1, left, right, found);
      SubtreeComplete(hash, txids, mask, h - 1, 2 * pos, t, c1, hashed);
      SubtreeComplete(hash, txids, mask, h - 1, 2 * pos + 1, t, Advance(c1, left, found), hashed);
      MatchedConcat(txids, mask, First(h, pos), Last(n, h - 1, 2 * pos), Last(n, h, pos));
      SiblingsDiffer(hash, txids, h - 1, pos, hashed);
      AdvanceTwice(c1, left, right, found, Matched(txids, mask, Last(n, h - 1, 2 * pos), Last(n, h, pos)));
    } else {
      SubtreeComplete(hash, txids, mask, h - 1, 2 * pos, t, c1, hashed);
    }
  }

  lemma SiblingsDiffer(hash: Hash, txids: seq<Digest>, h: nat, pos: nat, hashed: Pairs)
    requires Node(|txids|, h, 2 * pos) && Node(|txids|, h, 2 * pos + 1) && AllDistinct(txids)
    requires TreeHashed(hash, txids, h, 2 * pos, hashed) && TreeHashed(hash, txids, h, 2 * pos + 1, hashed)
    ensures CalcHash(hash, txids, h, 2 * pos) != CalcHash(hash, txids, h, 2 * pos + 1)
  {
    if CalcHash(hash, txids, h, 2 * pos) == CalcHash(hash, txids, h, 2 * pos + 1) {
      SameHashSameNode(hash, txids, h, 2 * pos, 2 * pos + 1, hashed);
    }
  }

  // ----- how much is stored

  function Count(mask: seq<bool>, lo: nat, hi: nat): (k: nat)
    requires lo <= hi <= |mask|
    ensures k <= hi - lo
  {
    if lo == hi then 0 else Count(mask, lo, hi - 1) + if mask[hi - 1] then 1 else 0
  }

  lemma {:induction false} CountConcat(mask: seq<bool>, lo: nat, mid: nat, hi: nat)
    requires lo <= mid <= hi <= |mask|
    ensures Count(mask, lo, hi) == Count(mask, lo, mid) + Count(mask, mid, hi)
    decreases hi
  {
    if mid < hi {
      CountConcat(mask, lo, mid, hi - 1);
    }
  }

  lemma {:induction false} CountSome(mask: seq<bool>, lo: nat, hi: nat, p: nat)
    requires lo <= p < hi <= |mask| && mask[p]
    ensures 1 <= Count(mask, lo, hi)
    decreases hi
  {
    if p < hi - 1 {
      CountSome(mask, lo, hi - 1, p);
    }
  }

  lemma FlagCounts(n: nat, mask: seq<bool>, h: nat, pos: nat)
    requires Node(n, h, pos) && |mask| == n && ParentOfMatch(mask, h, pos)
    ensures First(h, pos) <= Last(n, h, pos) <= n && 1 <= Count(mask, First(h, pos), Last(n, h, pos))
  {
    LeavesUnder(n, h, pos);
    var p :| pos * Pow2(h) <= p < (pos + 1) * Pow2(h) && p < |mask| && mask[p];
    CountSome(mask, First(h, pos), Last(n, h, pos), p);
  }

  // The flagged inner nodes with a single child.
  ghost function Singles(n: nat, mask: seq<bool>, h: nat, pos: nat): nat
    requires Node(n, h, pos) && |mask| == n
  {
    if h == 0 || !ParentOfMatch(mask, h, pos) then 0
    else
      Children(n, h, pos);
      if 2 * pos + 1 < CalcTreeWidth(n, h - 1)
      then Singles(n, mask, h - 1, 2 * pos) + Singles(n, mask, h - 1, 2 * pos + 1)
      else 1 + Singles(n, mask, h - 1, 2 * pos)
  }

  // The documented bound for `m` matches under a node of height h.
  function HashBound(h: nat, m: nat): (k: nat)
    ensures k >= 1
  {
    MulNonneg(h, m);
    1 + h * m
  }

  lemma BuildSizes(hash: Hash, txids: seq<Digest>, mask: seq<bool>, h: nat, pos: nat)
    requires Node(|txids|, h, pos) && |mask| == |txids| && h > 0 && ParentOfMatch(mask, h, pos)
    ensures Node(|txids|, h - 1, 2 * pos)
    ensures 2 * pos + 1 < CalcTreeWidth(|txids|, h - 1) ==> Node(|txids|, h - 1, 2 * pos + 1)
    ensures var b, left := Build(hash, txids, mask, h, pos), Build(hash, txids, mask, h - 1, 2 * pos);
            if 2 * pos + 1 < CalcTreeWidth(|txids|, h - 1) then
              var right := Build(hash, txids, mask, h - 1, 2 * pos + 1);
              |b.hashes| == |left.hashes| + |right.hashes| && |b.bits| == 1 + |left.bits| + |right.bits|
            else
              |b.hashes| == |left.hashes| && |b.bits| == 1 + |left.bits|
  {
    hide Pow2, Width, CalcTreeWidth, Node, CalcHash, ParentOfMatch;
    Children(|txids|, h, pos);
  }

  lemma StoredSizes(hash: Hash, txids: seq<Digest>, mask: seq<bool>, h: nat, pos: nat)
    requires Node(|txids|, h, pos) && |mask| == |txids| && (h == 0 || !ParentOfMatch(mask, h, pos))
    ensures |Build(hash, txids, mask, h, pos).hashes| == 1 == |Build(hash, txids, mask, h, pos).bits|
  {
  }

  // Stored bits: one per node of a tree whose leaves are the hashes.
  lemma {:induction false} SubtreeBits(hash: Hash, txids: seq<Digest>, mask: seq<bool>, h: nat, pos: nat)
    requires Node(|txids|, h, pos) && |mask| == |txids|
    ensures var b := Build(hash, txids, mask, h, pos);
            1 <= |b.hashes| && |b.bits| == 2 * |b.hashes| - 1 + Singles(|txids|, mask, h, pos)
    decreases h
  {
    hide Build, Pow2, Width, CalcTreeWidth, Node, CalcHash, ParentOfMatch;
    if h > 0 && ParentOfMatch(mask, h, pos) {
      BuildSizes(hash, txids, mask, h, pos);
      SubtreeBits(hash, txids, mask, h - 1, 2 * pos);
      if 2 * pos + 1 < CalcTreeWidth(|txids|, h - 1) {
        SubtreeBits(hash, txids, mask, h - 1, 2 * pos + 1);
      }
    } else {
      StoredSizes(hash, txids, mask, h, pos);
    }
  }

  // Stored hashes: at most one per leaf.
  lemma {:induction false} SubtreeLeaves(hash: Hash, txids: seq<Digest>, mask: seq<bool>, h: nat, pos: nat)
    requires Node(|txids|, h, pos) && |mask| == |txids|
    ensures First(h, pos) <= Last(|txids|, h, pos) <= |txids|
    ensures |Build(hash, txids, mask, h, pos).hashes| <= Last(|txids|, h, pos) - First(h, pos)
    decreases h
  {
    hide Build, Pow2, Width, CalcTreeWidth, Node, CalcHash, First, Last, ParentOfMatch;
    LeavesUnder(|txids|, h, pos);
    if h > 0 && ParentOfMatch(mask, h, pos) {
      BuildSizes(hash, txids, mask, h, pos);
      LeavesSplit(|txids|, h, pos);
      SubtreeLeaves(hash, txids, mask, h - 1, 2 * pos);
      if 2 * pos + 1 < CalcTreeWidth(|txids|, h - 1) {
        SubtreeLeaves(hash, txids, mask, h - 1, 2 * pos + 1);
      }
    } else {
      StoredSizes(hash, txids, mask, h, pos);
    }
  }

  lemma HashStep(h: nat, a: nat, b: nat)
    requires 1 <= a + b && h > 0
    ensures HashBound(h - 1, a) + HashBound(h - 1, b) <= HashBound(h, a + b)
  {
    MulPlus(h - 1, 1, a + b);
    MulPlus(a, b, h - 1);
  }

  lemma HashLess(h: nat, a: nat)
    requires h > 0
    ensures HashBound(h - 1, a) <= HashBound(h, a)
  {
    MulPlus(h - 1, 1, a);
  }

  // Stored hashes: at most one more than height times the matches.
  lemma {:induction false} SubtreeHashes(hash: Hash, txids: seq<Digest>, mask: seq<bool>, h: nat, pos: nat)
    requires Node(|txids|, h, pos) && |mask| == |txids|
    ensures First(h, pos) <= Last(|txids|, h, pos) <= |txids|
    ensures |Build(hash, txids, mask, h, pos).hashes| <= HashBound(h, Count(mask, First(h, pos), Last(|txids|, h, pos)))
    decreases h
  {
    hide Build, Pow2, Width, CalcTreeWidth, Node, CalcHash, First, Last, ParentOfMatch, Count, HashBound;
    var n := |txids|;
    LeavesUnder(n, h, pos);
    var lo, hi := First(h, pos), Last(n, h, pos);
    if h > 0 && ParentOfMatch(mask, h, pos) {
      BuildSizes(hash, txids, mask, h, pos);
      LeavesSplit(n, h, pos);
      FlagCounts(n, mask, h, pos);
      SubtreeHashes(hash, txids, mask, h - 1, 2 * pos);
      if 2 * pos + 1 < CalcTreeWidth(n, h - 1) {
        var mid := Last(n, h - 1, 2 * pos);
        SubtreeHashes(hash, txids, mask, h - 1, 2 * pos + 1);
        HashesAdd(mask, h, lo, mid, hi);
      } else {
        HashLess(h, Count(mask, lo, hi));
      }
    } else {
      StoredSizes(hash, txids, mask, h, pos);
    }
  }

  lemma HashesAdd(mask: seq<bool>, h: nat, lo: nat, mid: nat, hi: nat)
    requires lo <= mid <= hi <= |mask| && 1 <= Count(mask, lo, hi) && h > 0
    ensures HashBound(h - 1, Count(mask, lo, mid)) + HashBound(h - 1, Count(mask, mid, hi)) <= HashBound(h, Count(mask, lo, hi))
  {
    CountConcat(mask, lo, mid, hi);
    HashStep(h, Count(mask, lo, mid), Count(mask, mid, hi));
  }

  // Stored bits: at most one per node of a complete tree.
  lemma {:induction false} SubtreeNodes(hash: Hash, txids: seq<Digest>, mask: seq<bool>, h: nat, pos: nat)
    requires Node(|txids|, h, pos) && |mask| == |txids|
    ensures |Build(hash, txids, mask, h, pos).bits| < 2 * Pow2(h)
    decreases h
  {
    hide Build, Width, CalcTreeWidth, Node, CalcHash, ParentOfMatch;
    if h > 0 && ParentOfMatch(mask, h, pos) {
      BuildSizes(hash, txids, mask, h, pos);
      SubtreeNodes(hash, txids, mask, h - 1, 2 * pos);
      if 2 * pos + 1 < CalcTreeWidth(|txids|, h - 1) {
        SubtreeNodes(hash, txids, mask, h - 1, 2 * pos + 1);
      }
    } else {
      StoredSizes(hash, txids, mask, h, pos);
    }
  }

  // A node that is not the last of its level has only full flagged nodes below.
  lemma {:induction false} InnerHasNoSingles(n: nat, mask: seq<bool>, h: nat, pos: nat)
    requires Node(n, h, pos + 1) && Node(n, h, pos) && |mask| == n
    ensures Singles(n, mask, h, pos) == 0
    decreases h
  {
    hide Pow2, Width, CalcTreeWidth, ParentOfMatch;
    if h > 0 && ParentOfMatch(mask, h, pos) {
      Children(n, h, pos);
      Children(n, h, pos + 1);
      SmallerNode(n, h - 1, 2 * pos + 2, 2 * pos + 1);
      InnerHasNoSingles(n, mask, h - 1, 2 * pos);
      InnerHasNoSingles(n, mask, h - 1, 2 * pos + 1);
    }
  }

  lemma SmallerNode(n: nat, h: nat, p: nat, q: nat)
    requires Node(n, h, p) && q <= p
    ensures Node(n, h, q)
  {
  }

  // On level j, the last node has one child and a match under it.
  ghost predicate LoneEdge(n: nat, mask: seq<bool>, j: nat) {
    && 1 <= j <= 31 && n <= 0x8000_0000 && 0 < Width(n, j) && Width(n, j - 1) % 2 == 1
    && ParentOfMatch(mask, j, Width(n, j) - 1)
  }

  lemma MatchBelow(n: nat, mask: seq<bool>, h: nat, pos: nat)
    requires Node(n, h, pos) && h > 0 && |mask| == n
    ensures ParentOfMatch(mask, h, pos) <==>
              ParentOfMatch(mask, h - 1, 2 * pos) ||
              (2 * pos + 1 < CalcTreeWidth(n, h - 1) && ParentOfMatch(mask, h - 1, 2 * pos + 1))
  {
    Children(n, h, pos);
    NodeHasLeaf(n, h - 1, 2 * pos + 1);
    MulPlus(2 * pos, 1, Pow2(h - 1));
  }

  lemma {:induction false} EdgeSingles(n: nat, mask: seq<bool>, h: nat, pos: nat)
    requires Node(n, h, pos) && pos == Width(n, h) - 1 && |mask| == n
    ensures Singles(n, mask, h, pos) <= h
    ensures Singles(n, mask, h, pos) == 0 <==> forall j: nat :: 1 <= j <= h ==> !LoneEdge(n, mask, j)
    decreases h
  {
    hide Pow2, ParentOfMatch, CalcTreeWidth;
    if h > 0 {
      Children(n, h, pos);
      WidthHalves(n, h);
      MatchBelow(n, mask, h, pos);
      var last := Width(n, h - 1) - 1;
      EdgeSingles(n, mask, h - 1, last);
      if ParentOfMatch(mask, h, pos) {
        if 2 * pos + 1 < CalcTreeWidth(n, h - 1) {
          InnerHasNoSingles(n, mask, h - 1, 2 * pos);
          assert !LoneEdge(n, mask, h);
        } else {
          assert LoneEdge(n, mask, h);
        }
      } else {
        EdgeUnmatched(n, mask, h, pos);
      }
    }
  }

  // No match under the last node of a level means none under the last nodes further down.
  lemma {:induction false} EdgeUnmatched(n: nat, mask: seq<bool>, h: nat, pos: nat)
    requires Node(n, h, pos) && pos == Width(n, h) - 1 && |mask| == n && !ParentOfMatch(mask, h, pos)
    ensures forall j: nat :: 1 <= j <= h ==> !LoneEdge(n, mask, j)
    decreases h
  {
    hide Pow2, ParentOfMatch, CalcTreeWidth;
    if h > 0 {
      Children(n, h, pos);
      WidthHalves(n, h);
      MatchBelow(n, mask, h, pos);
      EdgeUnmatched(n, mask, h - 1, Width(n, h - 1) - 1);
    }
  }

  ghost function BuildAll(hash: Hash, txids: seq<Digest>, mask: seq<bool>): Partial
    requires 0 < |txids| <= 0x8000_0000 && |mask| == |txids|
  {
    RootExists(|txids|);
    Build(hash, txids, mask, Height(|txids|), 0)
  }

  // The documented bounds on the number of hashes, and the true bound on the number of bits.
  lemma SizeBounds(hash: Hash, txids: seq<Digest>, mask: seq<bool>)
    requires 0 < |txids| <= 0x8000_0000 && |mask| == |txids|
    ensures var b := BuildAll(hash, txids, mask);
            && 1 <= |b.hashes| <= |txids|
            && |b.hashes| <= 1 + Height(|txids|) * Count(mask, 0, |txids|)
            && |b.bits| <= 2 * |b.hashes| - 1 + Height(|txids|)
            && |b.hashes| <= |b.bits| < 0x1_0000_0000
  {
    RootExists(|txids|);
    SubtreeNodes(hash, txids, mask, Height(|txids|), 0);
    Pow2Of31();
    Pow2Mono(Height(|txids|), 31);
    WholeTree(|txids|);
    SubtreeBits(hash, txids, mask, Height(|txids|), 0);
    SubtreeLeaves(hash, txids, mask, Height(|txids|), 0);
    SubtreeHashes(hash, txids, mask, Height(|txids|), 0);
    EdgeSingles(|txids|, mask, Height(|txids|), 0);
  }

  lemma WholeTree(n: nat)
    requires 0 < n <= 0x8000_0000
    ensures Node(n, Height(n), 0) && First(Height(n), 0) == 0 && Last(n, Height(n), 0) == n
  {
    RootExists(n);
    NodeHasLeaf(n, Height(n), 1);
  }

  // The header comment promises at most 2N-1 bits for N hashes.  That holds exactly when no
  // last node of a level has a single child and a match under it ...
  lemma BitBoundIff(hash: Hash, txids: seq<Digest>, mask: seq<bool>)
    requires 0 < |txids| <= 0x8000_0000 && |mask| == |txids|
    ensures var b := BuildAll(hash, txids, mask);
            |b.bits| <= 2 * |b.hashes| - 1 <==>
              forall j: nat :: 1 <= j <= Height(|txids|) ==> !LoneEdge(|txids|, mask, j)
  {
    RootExists(|txids|);
    SubtreeBits(hash, txids, mask, Height(|txids|), 0);
    EdgeSingles(|txids|, mask, Height(|txids|), 0);
  }

  lemma ThreeLeaves()
    ensures Height(3) == 2 && LoneEdge(3, [false, false, true], 1)
  {
    hide Height, Pow2, CalcTreeWidth, Width, ParentOfMatch;
    WidthsOfThree();
    LastOfThree();
    assert CalcTreeWidth(3, 0) > 1 && CalcTreeWidth(3, 1) > 1;
  }

  lemma WidthsOfThree()
    ensures CalcTreeWidth(3, 0) == 3 && CalcTreeWidth(3, 1) == 2 && CalcTreeWidth(3, 2) == 1
    ensures Width(3, 1) == 2 && Width(3, 0) == 3
  {
    assert Pow2(1) == 2 && Pow2(2) == 4;
  }

  lemma LastOfThree()
    ensures ParentOfMatch([false, false, true], 1, 1)
  {
    var mask := [false, false, true];
    assert Pow2(1) == 2;
    assert mask[2] && 1 * Pow2(1) <= 2 < (1 + 1) * Pow2(1);
  }

  // ... and fails for three transactions of which the last is matched.
  lemma BitBoundFails(hash: Hash, a: Digest, b: Digest, c: Digest)
    ensures var t := BuildAll(hash, [a, b, c], [false, false, true]);
            |t.bits| > 2 * |t.hashes| - 1
  {
    hide BuildAll, LoneEdge, Height, Width;
    ThreeLeaves();
    BitBoundIff(hash, [a, b, c], [false, false, true]);
  }
}
