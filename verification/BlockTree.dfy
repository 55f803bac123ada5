// Block indexes linked to their parents, the skip pointers that shortcut the way down, and
// the search for an ancestor.
module BlockTree {
  import opened Bits

  class BlockIndex {
    const pprev: BlockIndex?
    const nHeight: nat
    const nChainWork: nat
    const hash: nat
    var pskip: BlockIndex?

    constructor (pprev: BlockIndex?, nChainWork: nat, hash: nat)
      requires pprev != null ==> pprev.Linked()
      ensures Linked() && this.pprev == pprev && this.nChainWork == nChainWork && this.hash == hash && pskip == null
    {
      this.pprev := pprev;
      this.nChainWork := nChainWork;
      this.hash := hash;
      nHeight := if pprev == null then 0 else pprev.nHeight + 1;
      pskip := null;
    }

    // Heights count the parents; these fields never change.
    ghost predicate Linked()
      decreases nHeight
    {
      if pprev == null then nHeight == 0
      else pprev.nHeight + 1 == nHeight && pprev.Linked()
    }

    // The reference: walking pprev.
    ghost function Ancestor(height: nat): (a: BlockIndex)
      requires Linked() && height <= nHeight
      ensures a.Linked() && a.nHeight == height
      decreases nHeight
    {
      if height == nHeight then this else pprev.Ancestor(height)
    }

    // A skip pointer is missing, or what BuildSkip makes it.
    ghost predicate SkipOk()
      requires Linked()
      reads this
    {
      pskip != null ==> nHeight > 0 && pskip == (SkipLower(nHeight); Ancestor(GetSkipHeight(nHeight)))
    }

    method GetAncestor(height: int, ghost tree: set<BlockIndex>) returns (a: BlockIndex?)
      requires this in tree && Closed(tree) && SkipsOk(tree)
      ensures a == if 0 <= height <= nHeight then Ancestor(height) else null
      ensures a != null ==> a in tree
    {
      if height > nHeight || height < 0 {
        return null;
      }
      var pindexWalk := this;
      var heightWalk: int := nHeight;
      while heightWalk > height
        invariant height <= heightWalk <= nHeight && pindexWalk in tree
        invariant pindexWalk == Ancestor(heightWalk)
        decreases heightWalk
      {
        AncestorStep(this, heightWalk);
        var heightSkip := GetSkipHeight(heightWalk);
        var heightSkipPrev := GetSkipHeight(heightWalk - 1);
        if pindexWalk.pskip != null
           && (heightSkip == height
               || (heightSkip > height && !(heightSkipPrev < heightSkip - 2 && heightSkipPrev >= height))) {
          SkipLower(heightWalk);
          AncestorTwice(this, heightWalk, heightSkip);
          InTree(tree, pindexWalk, heightSkip);
          pindexWalk := pindexWalk.pskip;
          heightWalk := heightSkip;
        } else {
          pindexWalk := pindexWalk.pprev;
          heightWalk := heightWalk - 1;
        }
      }
      return pindexWalk;
    }

    // In whatever order the skip pointers are built.
    method BuildSkip(ghost tree: set<BlockIndex>)
      requires this in tree && Closed(tree) && SkipsOk(tree)
      modifies this`pskip
      ensures SkipsOk(tree)
      ensures pprev != null ==> pskip != null && pskip == (SkipLower(nHeight); Ancestor(GetSkipHeight(nHeight)))
      ensures pprev == null ==> pskip == old(pskip)
    {
      if pprev != null {
        SkipLower(nHeight);
        pskip := pprev.GetAncestor(GetSkipHeight(nHeight), tree);
      }
    }
  }

  // A set of linked blocks with their parents.
  ghost predicate Closed(tree: set<BlockIndex>) {
    forall b :: b in tree ==> b.Linked() && (b.pprev != null ==> b.pprev in tree)
  }

  ghost predicate SkipsOk(tree: set<BlockIndex>)
    requires Closed(tree)
    reads tree
  {
    forall b :: b in tree ==> b.SkipOk()
  }

  lemma {:induction false} InTree(tree: set<BlockIndex>, b: BlockIndex, height: nat)
    requires Closed(tree) && b in tree && height <= b.nHeight
    ensures b.Ancestor(height) in tree
    decreases b.nHeight
  {
    if height < b.nHeight {
      InTree(tree, b.pprev, height);
    }
  }

  lemma {:induction false} AncestorTwice(b: BlockIndex, high: nat, low: nat)
    requires b.Linked() && low <= high <= b.nHeight
    ensures b.Ancestor(high).Ancestor(low) == b.Ancestor(low)
    decreases b.nHeight
  {
    if high < b.nHeight {
      AncestorTwice(b.pprev, high, low);
    }
  }

  lemma AncestorStep(b: BlockIndex, height: nat)
    requires b.Linked() && 0 < height <= b.nHeight
    ensures b.Ancestor(height).pprev == b.Ancestor(height - 1)
  {
    AncestorTwice(b, height, height - 1);
  }

  // ----- where skip pointers lead

  // x & y
  function And(x: nat, y: nat): nat
    decreases x + y
  {
    if x == 0 || y == 0 then 0
    else 2 * And(x / 2, y / 2) + (if x % 2 == 1 && y % 2 == 1 then 1 else 0)
  }

  // n & (n - 1); zero stays zero
  function InvertLowestOne(n: nat): nat {
    if n == 0 then 0 else And(n, n - 1)
  }

  function GetSkipHeight(height: nat): nat {
    if height < 2 then 0
    else if height % 2 == 1 then InvertLowestOne(InvertLowestOne(height - 1)) + 1
    else InvertLowestOne(height)
  }

  lemma {:induction false} AndSelf(n: nat)
    ensures And(n, n) == n
  {
    if n > 0 {
      AndSelf(n / 2);
    }
  }

  lemma InvertEven(u: nat)
    ensures InvertLowestOne(2 * u) == 2 * InvertLowestOne(u)
  {
    if u > 0 {
      var n := 2 * u;
      assert n / 2 == u && n % 2 == 0 && (n - 1) / 2 == u - 1;
    }
  }

  lemma InvertOdd(m: nat)
    ensures InvertLowestOne(2 * m + 1) == 2 * m
  {
    var n := 2 * m + 1;
    assert n / 2 == m && (n - 1) / 2 == m && (n - 1) % 2 == 0;
    AndSelf(m);
  }

  // The lowest one of m * 2^(k+1) + 2^k is its bit k, and turning it into a zero leaves the rest.
  lemma {:induction false} LowestOne(m: nat, k: nat)
    ensures 0 <= m * Pow2(k + 1) && InvertLowestOne(m * Pow2(k + 1) + Pow2(k)) == m * Pow2(k + 1)
    decreases k
  {
    hide InvertLowestOne;
    MulNonneg(m, Pow2(k + 1));
    MulTwo(m, Pow2(k));
    if k == 0 {
      InvertOdd(m);
    } else {
      MulTwo(m, Pow2(k - 1));
      LowestOne(m, k - 1);
      InvertEven(m * Pow2(k) + Pow2(k - 1));
    }
  }

  lemma {:induction false} AndLess(x: nat, y: nat)
    ensures And(x, y) <= y
    decreases x + y
  {
    if x > 0 && y > 0 {
      AndLess(x / 2, y / 2);
    }
  }

  lemma LowestOneLower(n: nat)
    requires n > 0
    ensures InvertLowestOne(n) < n
  {
    AndLess(n, n - 1);
  }

  lemma SkipLower(height: nat)
    requires height > 0
    ensures GetSkipHeight(height) < height
  {
    if height >= 2 {
      LowestOneLower(height);
      LowestOneLower(height - 1);
      if height % 2 == 1 && InvertLowestOne(height - 1) > 0 {
        LowestOneLower(InvertLowestOne(height - 1));
      }
    }
  }

  // ----- the order of blocks

  ghost predicate IsAncestor(a: BlockIndex, b: BlockIndex)
    requires b.Linked()
  {
    a.nHeight <= b.nHeight && b.Ancestor(a.nHeight) == a
  }

  lemma AncestorsTransitive(a: BlockIndex, b: BlockIndex, c: BlockIndex)
    requires b.Linked() && c.Linked() && IsAncestor(a, b) && IsAncestor(b, c)
    ensures IsAncestor(a, c)
  {
    AncestorTwice(c, b.nHeight, a.nHeight);
  }

  // Two ancestors of the same block are ancestors of one another.
  lemma AncestorsComparable(a: BlockIndex, b: BlockIndex, c: BlockIndex)
    requires c.Linked() && IsAncestor(a, c) && IsAncestor(b, c) && a.nHeight <= b.nHeight
    ensures b.Linked() && IsAncestor(a, b)
  {
    AncestorTwice(c, b.nHeight, a.nHeight);
  }
}
