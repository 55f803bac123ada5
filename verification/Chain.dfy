// The indexed chain: SetTip with its early stop, the fork point, and block locators.
module Chain {
  import opened Bits
  import opened BlockTree
  import opened ArithShift

  // The ancestors of b, by height.
  ghost function Path(b: BlockIndex): (p: seq<BlockIndex?>)
    requires b.Linked()
    ensures |p| == b.nHeight + 1
  {
    seq(b.nHeight + 1, i requires 0 <= i <= b.nHeight => b.Ancestor(i))
  }

  ghost function PathTo(b: BlockIndex?): seq<BlockIndex?>
    requires b != null ==> b.Linked()
  {
    if b == null then [] else Path(b)
  }

  lemma PathTail(b: BlockIndex, height: nat)
    requires b.Linked() && height <= b.nHeight
    ensures Path(b)[..height + 1] == Path(b.Ancestor(height))
  {
    forall i | 0 <= i <= height
      ensures Path(b)[i] == Path(b.Ancestor(height))[i]
    {
      AncestorTwice(b, height, i);
    }
  }

  // The height of the i-th entry of a locator: ten steps of one, then doubling steps.
  function LocatorHeight(height: nat, i: nat): nat {
    if i <= 10 then (if i <= height then height - i else 0)
    else if 9 + Pow2(i - 10) <= height then height - 9 - Pow2(i - 10) else 0
  }

  lemma LocatorStep(height: nat, i: nat)
    requires LocatorHeight(height, i) > 0
    ensures var step := if i < 10 then 1 else Pow2(i - 10);
            LocatorHeight(height, i + 1) == if step <= LocatorHeight(height, i) then LocatorHeight(height, i) - step else 0
    ensures LocatorHeight(height, i + 1) < LocatorHeight(height, i)
  {
    Pow2Zero();
  }

  // std::vector::resize
  function Resized(v: seq<BlockIndex?>, n: nat): (r: seq<BlockIndex?>)
    ensures |r| == n && forall i :: 0 <= i < n ==> r[i] == if i < |v| then v[i] else null
  {
    if n <= |v| then v[..n] else v + seq(n - |v|, i => null)
  }

  class CChain {
    var vChain: seq<BlockIndex?>

    ghost predicate Valid()
      reads this
    {
      vChain != [] ==> Tip() != null && Tip().Linked() && vChain == Path(Tip())
    }

    constructor ()
      ensures Valid() && vChain == []
    {
      vChain := [];
    }

    function Tip(): BlockIndex?
      reads this
    {
      if |vChain| > 0 then vChain[|vChain| - 1] else null
    }

    function Height(): int
      reads this
    {
      |vChain| - 1
    }

    function At(nHeight: int): BlockIndex?
      reads this
    {
      if nHeight < 0 || nHeight >= |vChain| then null else vChain[nHeight]
    }

    predicate Contains(b: BlockIndex)
      reads this
    {
      At(b.nHeight) == b
    }

    function Next(b: BlockIndex): BlockIndex?
      reads this
    {
      if Contains(b) then At(b.nHeight + 1) else null
    }

    // A block is in the chain when it is the tip or one of its ancestors.
    lemma ContainsIff(b: BlockIndex)
      requires Valid()
      ensures Contains(b) <==> Tip() != null && IsAncestor(b, Tip())
    {
    }

    // The block after b in the chain has b as its parent.
    lemma NextIsChild(b: BlockIndex)
      requires Valid() && Contains(b)
      ensures Next(b) == null <==> b == Tip()
      ensures Next(b) != null ==> Next(b).pprev == b
    {
      if Next(b) != null {
        AncestorStep(Tip(), b.nHeight + 1);
      }
    }

    // Filling in ancestors stops at the first entry that is right already.
    method SetTip(pindex: BlockIndex?)
      requires Valid() && (pindex != null ==> pindex.Linked())
      modifies this
      ensures Valid() && Tip() == pindex && vChain == PathTo(pindex)
    {
      if pindex == null {
        vChain := [];
        return;
      }
      ghost var was, path := vChain, Path(pindex);
      vChain := Resized(vChain, pindex.nHeight + 1);
      var p: BlockIndex? := pindex;
      while p != null && vChain[p.nHeight] != p
        invariant |vChain| == |path|
        invariant p != null ==> p.nHeight < |path| && p.Linked() && p == pindex.Ancestor(p.nHeight)
        invariant forall i :: (if p == null then 0 else p.nHeight + 1) <= i < |path| ==> vChain[i] == path[i]
        invariant forall i :: 0 <= i < |path| && p != null && i <= p.nHeight ==>
                    vChain[i] == if i < |was| then was[i] else null
        decreases if p == null then 0 else p.nHeight + 1
      {
        vChain := vChain[p.nHeight := p];
        if p.nHeight > 0 {
          AncestorStep(pindex, p.nHeight);
        }
        p := p.pprev;
      }
      if p != null {
        SameBelow(was, p, pindex);
        assert forall i :: 0 <= i <= p.nHeight ==> path[i] == path[..p.nHeight + 1][i];
        assert forall i :: 0 <= i <= p.nHeight ==> was[i] == was[..p.nHeight + 1][i];
      }
      assert vChain == path;
    }

    // An entry that is right has the right entries below it.
    lemma SameBelow(was: seq<BlockIndex?>, p: BlockIndex, pindex: BlockIndex)
      requires was != [] ==> was[|was| - 1] != null && was[|was| - 1].Linked() && was == Path(was[|was| - 1])
      requires pindex.Linked() && p.nHeight <= pindex.nHeight && p == pindex.Ancestor(p.nHeight)
      requires p.nHeight < |was| && was[p.nHeight] == p
      ensures was[..p.nHeight + 1] == Path(pindex)[..p.nHeight + 1]
    {
      PathTail(was[|was| - 1], p.nHeight);
      PathTail(pindex, p.nHeight);
    }

    // The common blocks of the chain and of pindex's ancestors are no higher than this.
    ghost predicate CommonUpTo(tree: set<BlockIndex>, pindex: BlockIndex, height: int)
      requires pindex.Linked()
      reads this
    {
      forall b: BlockIndex | b in tree && Contains(b) && IsAncestor(b, pindex) :: b.nHeight <= height
    }

    // The highest block that is both in the chain and an ancestor of pindex.
    method FindFork(pindex: BlockIndex?, ghost tree: set<BlockIndex>) returns (fork: BlockIndex?)
      requires Valid() && Closed(tree) && SkipsOk(tree) && (pindex != null ==> pindex in tree)
      ensures pindex == null ==> fork == null
      ensures pindex != null && fork != null ==> Contains(fork) && fork.Linked() && IsAncestor(fork, pindex)
      ensures pindex != null ==> CommonUpTo(tree, pindex, if fork != null then fork.nHeight else -1)
    {
      if pindex == null {
        return null;
      }
      hide CommonUpTo, IsAncestor, GetSkipHeight;
      fork := pindex;
      ReachedFrom(pindex);
      CommonBelowBoth(tree, pindex);
      if fork.nHeight > Height() {
        fork := fork.GetAncestor(Height(), tree);
      }
      while fork != null && !Contains(fork)
        invariant fork != null ==> fork in tree && fork.Linked() && IsAncestor(fork, pindex)
        invariant CommonUpTo(tree, pindex, if fork != null then fork.nHeight else -1)
        decreases if fork == null then 0 else fork.nHeight + 1
      {
        ParentCommon(pindex, fork);
        NotCommon(tree, pindex, fork);
        fork := fork.pprev;
      }
    }

    lemma ReachedFrom(pindex: BlockIndex)
      requires pindex.Linked()
      ensures forall h: nat | h <= pindex.nHeight :: IsAncestor(pindex.Ancestor(h), pindex)
      ensures IsAncestor(pindex, pindex)
    {
    }

    lemma ParentCommon(pindex: BlockIndex, fork: BlockIndex)
      requires pindex.Linked() && fork.Linked() && IsAncestor(fork, pindex)
      ensures fork.pprev != null ==> fork.pprev.nHeight == fork.nHeight - 1 && IsAncestor(fork.pprev, pindex)
      ensures fork.pprev == null ==> fork.nHeight == 0
    {
      if fork.nHeight > 0 {
        AncestorStep(pindex, fork.nHeight);
      }
    }

    lemma CommonBelowBoth(tree: set<BlockIndex>, pindex: BlockIndex)
      requires pindex.Linked()
      ensures CommonUpTo(tree, pindex, pindex.nHeight) && CommonUpTo(tree, pindex, Height())
    {
    }

    // A block outside the chain is none of the common ones.
    lemma NotCommon(tree: set<BlockIndex>, pindex: BlockIndex, fork: BlockIndex)
      requires pindex.Linked() && fork.Linked() && IsAncestor(fork, pindex) && !Contains(fork)
      requires CommonUpTo(tree, pindex, fork.nHeight)
      ensures CommonUpTo(tree, pindex, fork.nHeight - 1)
    {
    }

    // The hashes of pindex, or of the tip, and of its ancestors at the locator heights.
    method GetLocator(start: BlockIndex?, ghost tree: set<BlockIndex>) returns (vHave: seq<nat>)
      requires Valid() && Closed(tree) && SkipsOk(tree) && (start != null ==> start in tree)
      requires Tip() != null ==> Tip() in tree
      ensures start == null && Tip() == null ==> vHave == []
      ensures start != null ==> start.Linked() && IsLocator(start, vHave)
      ensures start == null && Tip() != null ==> IsLocator(Tip(), vHave)
    {
      vHave := [];
      var pindex := start;
      if pindex == null {
        pindex := Tip();
      }
      if pindex == null {
        return;
      }
      vHave := LocatorFrom(pindex, tree);
    }

    // By index inside the chain, by search outside it.
    method StepBack(pindex: BlockIndex, nHeight: nat, ghost tree: set<BlockIndex>) returns (a: BlockIndex)
      requires Valid() && Closed(tree) && SkipsOk(tree) && pindex in tree && nHeight <= pindex.nHeight
      ensures pindex.Linked() && a == pindex.Ancestor(nHeight) && a in tree
    {
      InTree(tree, pindex, nHeight);
      if Contains(pindex) {
        ContainsIff(pindex);
        AncestorTwice(Tip(), pindex.nHeight, nHeight);
        return At(nHeight);
      }
      a := pindex.GetAncestor(nHeight, tree);
    }

    method LocatorFrom(from: BlockIndex, ghost tree: set<BlockIndex>) returns (vHave: seq<nat>)
      requires Valid() && Closed(tree) && SkipsOk(tree) && from in tree
      ensures from.Linked() && IsLocator(from, vHave)
    {
      hide LocatorHeight, Locating, Pow2, GetSkipHeight;
      var nStep := 1;
      var pindex: BlockIndex? := from;
      vHave := [];
      LocatorStarts(from);
      while pindex != null
        invariant pindex != null && pindex in tree && Locating(from, vHave, pindex)
        invariant nStep == if |vHave| <= 10 then 1 else Pow2(|vHave| - 10)
        decreases if pindex == null then 0 else pindex.nHeight + 1
      {
        ghost var soFar := vHave;
        vHave := vHave + [pindex.hash];
        if pindex.nHeight == 0 {
          LocatorEnds(from, soFar, pindex);
          return;
        }
        var nHeight := if pindex.nHeight - nStep > 0 then pindex.nHeight - nStep else 0;
        LocatorGrows(from, soFar, pindex, nStep);
        pindex := StepBack(pindex, nHeight, tree);
        if |vHave| > 10 {
          nStep := nStep * 2;
        }
      }
    }
  }

  // Each entry is the ancestor at its height; only the last one is genesis.
  ghost predicate IsLocator(b: BlockIndex, vHave: seq<nat>)
    requires b.Linked()
  {
    && vHave != [] && LocatorHeight(b.nHeight, |vHave| - 1) == 0
    && (forall i :: 0 <= i < |vHave| - 1 ==> LocatorHeight(b.nHeight, i) > 0)
    && (forall i :: 0 <= i < |vHave| ==>
          LocatorHeight(b.nHeight, i) <= b.nHeight && vHave[i] == b.Ancestor(LocatorHeight(b.nHeight, i)).hash)
  }

  // The entries so far, none of them genesis, and the block that comes next.
  ghost predicate Locating(b: BlockIndex, vHave: seq<nat>, next: BlockIndex)
    requires b.Linked()
  {
    && (forall i :: 0 <= i < |vHave| ==>
          0 < LocatorHeight(b.nHeight, i) <= b.nHeight && vHave[i] == b.Ancestor(LocatorHeight(b.nHeight, i)).hash)
    && LocatorHeight(b.nHeight, |vHave|) <= b.nHeight && next == b.Ancestor(LocatorHeight(b.nHeight, |vHave|))
  }

  lemma LocatorStarts(b: BlockIndex)
    requires b.Linked()
    ensures Locating(b, [], b) && Pow2(0) == 1
  {
  }

  lemma LocatorGrows(b: BlockIndex, vHave: seq<nat>, last: BlockIndex, nStep: nat)
    requires b.Linked() && Locating(b, vHave, last) && last.nHeight > 0
    requires nStep == if |vHave| <= 10 then 1 else Pow2(|vHave| - 10)
    ensures last.Linked() && nStep > 0
    ensures Locating(b, vHave + [last.hash], last.Ancestor(if last.nHeight - nStep > 0 then last.nHeight - nStep else 0))
    ensures |vHave| >= 10 ==> nStep * 2 == Pow2(|vHave| + 1 - 10)
  {
    Pow2Zero();
    LocatorStep(b.nHeight, |vHave|);
    AncestorTwice(b, last.nHeight, if last.nHeight - nStep > 0 then last.nHeight - nStep else 0);
    hide LocatorHeight;
  }

  lemma LocatorEnds(b: BlockIndex, vHave: seq<nat>, last: BlockIndex)
    requires b.Linked() && Locating(b, vHave, last) && last.nHeight == 0
    ensures IsLocator(b, vHave + [last.hash])
  {
    hide LocatorHeight;
  }

  // A locator starts at the block, descends strictly to genesis, and is no longer than the
  // logarithm of the height plus twelve.
  lemma LocatorShape(b: BlockIndex, vHave: seq<nat>)
    requires b.Linked() && IsLocator(b, vHave)
    ensures vHave[0] == b.hash && vHave[|vHave| - 1] == b.Ancestor(0).hash
    ensures forall i :: 0 <= i < |vHave| - 1 ==> LocatorHeight(b.nHeight, i + 1) < LocatorHeight(b.nHeight, i)
    ensures |vHave| <= BitLen(b.nHeight) + 11
  {
    forall i | 0 <= i < |vHave| - 1
      ensures LocatorHeight(b.nHeight, i + 1) < LocatorHeight(b.nHeight, i)
    {
      LocatorStep(b.nHeight, i);
    }
    LocatorLength(b.nHeight, |vHave|);
  }

  // floor(log2 h) is BitLen(h) - 1 for h > 0.
  lemma LocatorLength(height: nat, n: nat)
    requires n > 0 && (n > 1 ==> LocatorHeight(height, n - 2) > 0)
    ensures n <= BitLen(height) + 11
  {
    if n > 11 {
      BitLenBounds(height);
      Pow2Zero();
      if BitLen(height) < n - 12 + 1 {
        Pow2Mono(BitLen(height), n - 12);
      }
    }
  }
}
