// Blocks::DB::appendHeader on the list of tips and the header chain.
module HeaderDB {
  import opened BlockTree
  import opened Chain
  import opened HeaderTips

  class DB {
    const headersChain: CChain
    var headerChainTips: seq<BlockIndex>
    var pindexBestHeader: BlockIndex?

    ghost function View(): Headers
      reads this, headersChain
    {
      Headers(headerChainTips, headersChain.Tip())
    }

    ghost predicate Valid()
      reads this, headersChain
    {
      && headersChain.Valid() && AllLinked(headerChainTips)
      && (headersChain.Tip() == null ==> headerChainTips == [] && headersChain.vChain == [])
    }

    constructor ()
      ensures Valid() && View() == Headers([], null) && pindexBestHeader == null && fresh(headersChain)
    {
      headersChain := new CChain();
      headerChainTips, pindexBestHeader := [], null;
    }

    // The first tip that block extends.
    method FindBelow(block: BlockIndex, ghost tree: set<BlockIndex>) returns (i: nat)
      requires Valid() && Closed(tree) && SkipsOk(tree) && block in tree
      ensures block.Linked() && i == FirstBelow(headerChainTips, block)
    {
      i := 0;
      ghost var tips := headerChainTips;
      assert tips[0..] == tips;
      while i < |headerChainTips|
        invariant i <= |tips| && FirstBelow(tips, block) == i + FirstBelow(tips[i..], block)
      {
        var tip := headerChainTips[i];
        var parent := block.GetAncestor(tip.nHeight, tree);
        if parent == tip {
          return;
        }
        assert tips[i..][1..] == tips[i + 1..];
        i := i + 1;
      }
    }

    // The first tip that knows block.
    method FindAbove(block: BlockIndex, ghost tree: set<BlockIndex>) returns (j: nat)
      requires Valid() && Closed(tree) && SkipsOk(tree)
      requires forall t :: t in headerChainTips ==> t in tree
      ensures j == FirstAbove(headerChainTips, block)
    {
      j := 0;
      ghost var tips := headerChainTips;
      assert tips[0..] == tips;
      while j < |headerChainTips|
        invariant j <= |tips| && AllLinked(tips[j..]) && FirstAbove(tips, block) == j + FirstAbove(tips[j..], block)
      {
        assert tips[j] in headerChainTips;
        var known := headerChainTips[j].GetAncestor(block.nHeight, tree);
        if known == block {
          return;
        }
        assert tips[j..][1..] == tips[j + 1..];
        j := j + 1;
      }
    }

    // A tip above a failed header, none below it.
    static ghost predicate CutBack(s: Headers, header: BlockIndex, failed: bool)
      requires MayAppend(s, header, failed)
    {
      failed && FirstBelow(s.tips, header) == |s.tips| && FirstAbove(s.tips, header) < |s.tips|
    }

    method SetMain(block: BlockIndex)
      requires headersChain.Valid() && block.Linked()
      modifies this`pindexBestHeader, headersChain
      ensures headersChain.Valid() && headersChain.Tip() == block && pindexBestHeader == block
    {
      headersChain.SetTip(block);
      pindexBestHeader := block;
    }

    // failed: one of the failure bits of nStatus is set.
    method AppendHeader(header: BlockIndex, failed: bool, ghost tree: set<BlockIndex>) returns (changed: bool)
      requires Valid() && Closed(tree) && SkipsOk(tree) && header in tree
      requires forall t :: t in headerChainTips ==> t in tree
      requires MayAppend(View(), header, failed)
      modifies this, headersChain
      ensures Valid() && MayAppend(old(View()), header, failed)
      ensures forall t :: t in headerChainTips ==> t in tree
      ensures (View(), changed) == Append(old(View()), header, failed)
      // cutting back a tip that knew a failed header leaves pindexBestHeader as it was
      ensures pindexBestHeader ==
                if changed && !CutBack(old(View()), header, failed) then headersChain.Tip() else old(pindexBestHeader)
    {
      hide FirstBelow, FirstAbove, GetSkipHeight, Moved, AllLinked, IsAncestor;
      var block := header;
      var valid := !failed;
      AppendLinked(View(), header, failed);
      headersChain.ContainsIff(block);
      if valid && headersChain.Contains(block) {
        return false;
      }
      var tips := headerChainTips;
      var i := FindBelow(block, tree);
      var found := i < |tips|;
      if found {
        var tip := tips[i];
        if !valid {
          block := block.pprev;
        }
        MovedOnly(tips, i, block);
        headerChainTips := Moved(tips, i, block);
        if tip == headersChain.Tip() {
          SetMain(block);
          return true;
        }
      } else {
        var j := FindAbove(block, tree);
        if j < |tips| {
          if valid {
            return false;
          }
          headersChain.ContainsIff(tips[j]);
          var modifyingMainChain := headersChain.Contains(tips[j]);
          block := block.pprev;
          MovedOnly(tips, j, block);
          headerChainTips := Moved(tips, j, block);
          if modifyingMainChain {
            headersChain.SetTip(block);
          }
          return modifyingMainChain;
        }
        if valid {
          headerChainTips := headerChainTips + [block];
          if headersChain.Height() == -1 {
            SetMain(block);
            return true;
          }
        }
      }
      if headersChain.Tip().nChainWork < block.nChainWork {
        SetMain(block);
        return true;
      }
      return false;
    }
  }
}
