// The Merkle tree over the transaction ids of a block, its partial form as a stream of flag
// bits and a stream of hashes, and the two traversals that write and read that form.
module MerkleTree {
  import opened Bits

  type Digest = nat // uint256; the null digest is 0
  type Hash = (Digest, Digest) -> Digest

  const NULL_DIGEST: Digest := 0

  // What was hashed for an inner node.
  datatype Hashed = Hashed(height: nat, pos: nat, left: Digest, right: Digest)

  type Pairs = set<Hashed>

  // Two different pairs among those hashed have the same hash.
  ghost predicate Collision(hash: Hash, hashed: Pairs) {
    exists p, q :: p in hashed && q in hashed && (p.left != q.left || p.right != q.right)
                   && hash(p.left, p.right) == hash(q.left, q.right)
  }

  // unsigned int
  function Uint32(x: nat): nat {
    x % 0x1_0000_0000
  }

  // ----- the shape of the tree

  // (n + (1 << h) - 1) >> h on 32 bits
  function CalcTreeWidth(n: nat, h: nat): (w: nat) {
    DivNonneg((n + Pow2(h) - 1) % 0x1_0000_0000, Pow2(h));
    ((n + Pow2(h) - 1) % 0x1_0000_0000) / Pow2(h)
  }

  // The number of nodes at height h, without the wrap-around.
  function Width(n: nat, h: nat): (w: nat) {
    DivNonneg(n + Pow2(h) - 1, Pow2(h));
    (n + Pow2(h) - 1) / Pow2(h)
  }

  lemma Pow2Of31()
    ensures Pow2(31) == 0x8000_0000 && Pow2(30) == 0x4000_0000
  {
    Pow2Add(8, 8);
    Pow2Add(16, 8);
    Pow2Add(24, 6);
    assert Pow2(8) == 256;
    assert Pow2(6) == 64;
  }

  // A level has half the nodes of the one below, rounded up.
  lemma WidthHalves(n: nat, h: nat)
    requires h > 0
    ensures Width(n, h) == (Width(n, h - 1) + 1) / 2
  {
    HalfOfQuotient(n, Pow2(h - 1));
  }

  lemma HalfOfQuotient(n: nat, p: nat)
    requires p > 0
    ensures (n + 2 * p - 1) / (2 * p) == ((n + p - 1) / p + 1) / 2
  {
    var q, r := (n + p - 1) / p, (n + p - 1) % p;
    var k := (q + 1) / 2;
    MulTwo(k, p);
    if q == 2 * k {
      DivUnique(n + 2 * p - 1, 2 * p, k, p + r);
    } else {
      MulPlus(2 * k, -1, p);
      DivUnique(n + 2 * p - 1, 2 * p, k, r);
    }
  }

  lemma WidthZero(n: nat)
    ensures Width(n, 0) == n
  {
  }

  // Node pos exists at height h exactly if its first leaf does.
  lemma NodeHasLeaf(n: nat, h: nat, pos: nat)
    ensures pos < Width(n, h) <==> pos * Pow2(h) < n
  {
    CeilAbove(n, Pow2(h), pos);
  }

  lemma CeilAbove(n: nat, p: nat, pos: nat)
    requires p > 0
    ensures pos < (n + p - 1) / p <==> pos * p < n
  {
    var q, r := (n + p - 1) / p, (n + p - 1) % p;
    if pos < q {
      MulMono(pos + 1, q, p);
      MulPlus(pos, 1, p);
    } else {
      MulMono(q, pos, p);
    }
  }

  lemma WidthExact(n: nat, h: nat)
    requires n <= 0x8000_0000 && h <= 31
    ensures CalcTreeWidth(n, h) == Width(n, h)
  {
    Pow2Of31();
    Pow2Mono(h, 31);
  }

  // The 32-bit width is right at every height up to 31 exactly for at most 2^31 leaves.
  lemma WidthExactIff(n: nat)
    requires n < 0x1_0000_0000
    ensures n <= 0x8000_0000 <==> forall h: nat :: h <= 31 ==> CalcTreeWidth(n, h) == Width(n, h)
  {
    if n <= 0x8000_0000 {
      forall h: nat | h <= 31
        ensures CalcTreeWidth(n, h) == Width(n, h)
      {
        WidthExact(n, h);
      }
    } else {
      Pow2Of31();
      assert CalcTreeWidth(n, 31) != Width(n, 31);
    }
  }

  lemma TopWidth(n: nat)
    requires n < 0x1_0000_0000
    ensures CalcTreeWidth(n, 31) <= 1
  {
    Pow2Of31();
  }

  // The first height from h on with at most one node.
  function HeightFrom(n: nat, h: nat): (top: nat)
    requires n < 0x1_0000_0000 && h <= 31
    ensures h <= top <= 31 && CalcTreeWidth(n, top) <= 1
    ensures forall j :: h <= j < top ==> CalcTreeWidth(n, j) > 1
    decreases 31 - h
  {
    TopWidth(n);
    if CalcTreeWidth(n, h) <= 1 then h else HeightFrom(n, h + 1)
  }

  function Height(n: nat): (top: nat)
    requires n < 0x1_0000_0000
    ensures top <= 31 && CalcTreeWidth(n, top) <= 1
    ensures forall j :: 0 <= j < top ==> CalcTreeWidth(n, j) > 1
  {
    HeightFrom(n, 0)
  }

  // The tree has one root, over at least one leaf.
  lemma RootExists(n: nat)
    requires 0 < n <= 0x8000_0000
    ensures Width(n, Height(n)) == 1
  {
    WidthExact(n, Height(n));
    NodeHasLeaf(n, Height(n), 0);
  }

  // ----- the hash of a node

  ghost predicate Node(n: nat, h: nat, pos: nat) {
    n <= 0x8000_0000 && h <= 31 && pos < Width(n, h)
  }

  lemma Children(n: nat, h: nat, pos: nat)
    requires Node(n, h, pos) && h > 0
    ensures Node(n, h - 1, 2 * pos) && CalcTreeWidth(n, h - 1) == Width(n, h - 1)
    ensures 2 * pos + 1 < CalcTreeWidth(n, h - 1) <==> Node(n, h - 1, 2 * pos + 1)
    ensures pos * Pow2(h) == (2 * pos) * Pow2(h - 1)
    ensures (2 * pos + 1) * Pow2(h - 1) == pos * Pow2(h) + Pow2(h - 1)
    ensures (pos + 1) * Pow2(h) == (2 * pos + 2) * Pow2(h - 1) == pos * Pow2(h) + 2 * Pow2(h - 1)
  {
    WidthHalves(n, h);
    WidthExact(n, h - 1);
    var p := Pow2(h - 1);
    MulTwo(pos, p);
    MulPlus(2 * pos, 1, p);
    MulPlus(2 * pos, 2, p);
    MulPlus(pos, 1, 2 * p);
  }

  ghost function CalcHash(hash: Hash, txids: seq<Digest>, h: nat, pos: nat): Digest
    requires Node(|txids|, h, pos)
  {
    if h == 0 then
      WidthZero(|txids|);
      txids[pos]
    else
      Children(|txids|, h, pos);
      var left := CalcHash(hash, txids, h - 1, 2 * pos);
      var right := if 2 * pos + 1 < CalcTreeWidth(|txids|, h - 1) then CalcHash(hash, txids, h - 1, 2 * pos + 1) else left;
      hash(left, right)
  }

  // What is hashed to get the hash of a node.
  ghost function TreePairs(hash: Hash, txids: seq<Digest>, h: nat, pos: nat): Pairs
    requires Node(|txids|, h, pos)
  {
    if h == 0 then {}
    else
      Children(|txids|, h, pos);
      var left := CalcHash(hash, txids, h - 1, 2 * pos);
      if 2 * pos + 1 < CalcTreeWidth(|txids|, h - 1) then
        TreePairs(hash, txids, h - 1, 2 * pos) + TreePairs(hash, txids, h - 1, 2 * pos + 1)
        + {Hashed(h, pos, left, CalcHash(hash, txids, h - 1, 2 * pos + 1))}
      else TreePairs(hash, txids, h - 1, 2 * pos) + {Hashed(h, pos, left, left)}
  }

  // The pairs hashed for a node are among those looked at, and none of these collide.
  ghost predicate TreeHashed(hash: Hash, txids: seq<Digest>, h: nat, pos: nat, hashed: Pairs)
    requires Node(|txids|, h, pos)
  {
    TreePairs(hash, txids, h, pos) <= hashed && !Collision(hash, hashed)
  }

  // ----- building

  datatype Partial = Partial(bits: seq<bool>, hashes: seq<Digest>)

  function Append(a: Partial, b: Partial): Partial {
    Partial(a.bits + b.bits, a.hashes + b.hashes)
  }

  // Whether a leaf under the node is matched.
  ghost predicate ParentOfMatch(mask: seq<bool>, h: nat, pos: nat) {
    exists p :: pos * Pow2(h) <= p < (pos + 1) * Pow2(h) && p < |mask| && mask[p]
  }

  ghost function Build(hash: Hash, txids: seq<Digest>, mask: seq<bool>, h: nat, pos: nat): Partial
    requires Node(|txids|, h, pos) && |mask| == |txids|
    decreases h, 1
  {
    var flag := ParentOfMatch(mask, h, pos);
    if h == 0 || !flag then Partial([flag], [CalcHash(hash, txids, h, pos)])
    else Append(Partial([flag], []), BuildChildren(hash, txids, mask, h, pos))
  }

  ghost function BuildChildren(hash: Hash, txids: seq<Digest>, mask: seq<bool>, h: nat, pos: nat): Partial
    requires Node(|txids|, h, pos) && |mask| == |txids| && h > 0
    decreases h, 0
  {
    Children(|txids|, h, pos);
    var left := Build(hash, txids, mask, h - 1, 2 * pos);
    if 2 * pos + 1 < CalcTreeWidth(|txids|, h - 1)
    then Append(left, Build(hash, txids, mask, h - 1, 2 * pos + 1)) else left
  }

  // ----- extracting

  datatype Cursor = Cursor(nBits: nat, nHashes: nat, matched: seq<Digest>, bad: bool)

  function Extract(hash: Hash, n: nat, t: Partial, h: nat, pos: nat, c: Cursor): (r: (Digest, Cursor))
    ensures c.bad ==> r.1.bad
    decreases h, 1
  {
    if c.nBits >= |t.bits| then (NULL_DIGEST, c.(bad := true))
    else
      var flag := t.bits[c.nBits];
      var c1 := c.(nBits := Uint32(c.nBits + 1));
      if h == 0 || !flag then
        if c1.nHashes >= |t.hashes| then (NULL_DIGEST, c1.(bad := true))
        else
          var digest := t.hashes[c1.nHashes];
          (digest, c1.(nHashes := Uint32(c1.nHashes + 1), matched := if h == 0 && flag then c1.matched + [digest] else c1.matched))
      else ExtractChildren(hash, n, t, h, pos, c1)
  }

  function ExtractChildren(hash: Hash, n: nat, t: Partial, h: nat, pos: nat, c: Cursor): (r: (Digest, Cursor))
    requires h > 0
    ensures c.bad ==> r.1.bad
    decreases h, 0
  {
    var (left, c1) := Extract(hash, n, t, h - 1, 2 * pos, c);
    if 2 * pos + 1 < CalcTreeWidth(n, h - 1) then
      var (right, c2) := Extract(hash, n, t, h - 1, 2 * pos + 1, c1);
      (hash(left, right), if right == left then c2.(bad := true) else c2)
    else (hash(left, left), c1)
  }

  // What is hashed on the way.
  ghost function ExtractPairs(hash: Hash, n: nat, t: Partial, h: nat, pos: nat, c: Cursor): Pairs
    decreases h, 1
  {
    if c.nBits >= |t.bits| || h == 0 || !t.bits[c.nBits] then {}
    else ChildrenPairs(hash, n, t, h, pos, c.(nBits := Uint32(c.nBits + 1)))
  }

  ghost function ChildrenPairs(hash: Hash, n: nat, t: Partial, h: nat, pos: nat, c: Cursor): Pairs
    requires h > 0
    decreases h, 0
  {
    var (left, c1) := Extract(hash, n, t, h - 1, 2 * pos, c);
    if 2 * pos + 1 < CalcTreeWidth(n, h - 1) then
      var (right, _) := Extract(hash, n, t, h - 1, 2 * pos + 1, c1);
      ExtractPairs(hash, n, t, h - 1, 2 * pos, c) + ExtractPairs(hash, n, t, h - 1, 2 * pos + 1, c1)
      + {Hashed(h, pos, left, right)}
    else ExtractPairs(hash, n, t, h - 1, 2 * pos, c) + {Hashed(h, pos, left, left)}
  }

  // What ExtractMatches answers: the root, or the null digest, and the matches.
  function ExtractMatches(hash: Hash, n: nat, t: Partial, wasBad: bool): (r: (Digest, seq<Digest>, bool))
    requires n < 0x1_0000_0000
  {
    if n == 0 || |t.hashes| > Uint32(2 * n) || |t.bits| < |t.hashes| then (NULL_DIGEST, [], wasBad)
    else
      var (root, c) := Extract(hash, n, t, Height(n), 0, Cursor(0, 0, [], wasBad));
      if c.bad || Uint32(c.nBits + 7) / 8 != (|t.bits| + 7) / 8 || c.nHashes != |t.hashes|
      then (NULL_DIGEST, c.matched, c.bad)
      else (root, c.matched, c.bad)
  }
}
