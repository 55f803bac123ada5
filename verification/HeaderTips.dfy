// The set of header-chain tips and the choice of the main header chain, in any arrival order.
module HeaderTips {
  import opened BlockTree

  // The tips, in list order, and the tip of the main header chain.
  datatype Headers = Headers(tips: seq<BlockIndex>, tip: BlockIndex?)

  ghost predicate AllLinked(tips: seq<BlockIndex>) {
    forall i :: 0 <= i < |tips| ==> tips[i].Linked()
  }

  // The first tip that block extends, or |tips|.
  ghost function FirstBelow(tips: seq<BlockIndex>, block: BlockIndex): (i: nat)
    requires block.Linked()
    ensures i <= |tips| && (i < |tips| ==> IsAncestor(tips[i], block))
    ensures forall k :: 0 <= k < i ==> !IsAncestor(tips[k], block)
  {
    if tips == [] || IsAncestor(tips[0], block) then 0 else 1 + FirstBelow(tips[1..], block)
  }

  // The first tip that has block below it, or |tips|.
  ghost function FirstAbove(tips: seq<BlockIndex>, block: BlockIndex): (i: nat)
    requires AllLinked(tips)
    ensures i <= |tips| && (i < |tips| ==> IsAncestor(block, tips[i]))
    ensures forall k :: 0 <= k < i ==> !IsAncestor(block, tips[k])
  {
    if tips == [] || IsAncestor(block, tips[0]) then 0 else 1 + FirstAbove(tips[1..], block)
  }

  // Tip i erased, b put at the end.
  function Moved(tips: seq<BlockIndex>, i: nat, b: BlockIndex): seq<BlockIndex>
    requires i < |tips|
  {
    tips[..i] + tips[i + 1..] + [b]
  }

  // Switch to b when it has more work.
  ghost function Switched(s: Headers, b: BlockIndex): (Headers, bool)
    requires s.tip != null
  {
    if s.tip.nChainWork < b.nChainWork then (s.(tip := b), true) else (s, false)
  }

  // The genesis block cannot have failed, and a header only fails once there is a chain.
  ghost predicate MayAppend(s: Headers, block: BlockIndex, failed: bool) {
    && block.Linked() && AllLinked(s.tips)
    && (s.tip != null ==> s.tip.Linked()) && (s.tip == null ==> s.tips == [])
    && (failed ==> block.pprev != null && s.tip != null)
  }

  ghost function Append(s: Headers, block: BlockIndex, failed: bool): (Headers, bool)
    requires MayAppend(s, block, failed)
  {
    if !failed && s.tip != null && IsAncestor(block, s.tip) then (s, false)
    else
      var i, j := FirstBelow(s.tips, block), FirstAbove(s.tips, block);
      if i < |s.tips| then
        var b := if failed then block.pprev else block;
        var tips := Moved(s.tips, i, b);
        if s.tips[i] == s.tip then (Headers(tips, b), true) else Switched(Headers(tips, s.tip), b)
      else if j < |s.tips| then
        if !failed then (s, false)
        else
          var tips, changed := Moved(s.tips, j, block.pprev), IsAncestor(s.tips[j], s.tip);
          (Headers(tips, if changed then block.pprev else s.tip), changed)
      else
        var tips := if failed then s.tips else s.tips + [block];
        if s.tip == null then (Headers(tips, block), true) else Switched(Headers(tips, s.tip), block)
  }

  lemma AppendLinked(s: Headers, block: BlockIndex, failed: bool)
    requires MayAppend(s, block, failed)
    ensures AllLinked(Append(s, block, failed).0.tips) && Append(s, block, failed).0.tip != null
  {
  }

  // ----- the invariant

  // Work grows along the parents.
  ghost predicate Growing(b: BlockIndex)
    requires b.Linked()
    decreases b.nHeight
  {
    b.pprev != null ==> b.pprev.nChainWork < b.nChainWork && Growing(b.pprev)
  }

  ghost predicate Antichain(tips: seq<BlockIndex>)
    requires AllLinked(tips)
  {
    forall i, j :: 0 <= i < |tips| && 0 <= j < |tips| && i != j ==> !IsAncestor(tips[i], tips[j])
  }

  ghost predicate Covered(tips: seq<BlockIndex>, b: BlockIndex)
    requires AllLinked(tips)
  {
    exists i :: 0 <= i < |tips| && IsAncestor(b, tips[i])
  }

  // The tips are pairwise unrelated, cover every header seen, and the main one has most work.
  ghost predicate Inv(s: Headers, seen: set<BlockIndex>) {
    && AllLinked(s.tips) && (forall i :: 0 <= i < |s.tips| ==> Growing(s.tips[i]))
    && Antichain(s.tips)
    && (forall b :: b in seen ==> Covered(s.tips, b))
    && (if s.tip == null then s.tips == [] else s.tip in s.tips)
    && (forall i :: 0 <= i < |s.tips| ==> s.tips[i].nChainWork <= s.tip.nChainWork)
  }

  lemma {:induction false} WorkGrows(a: BlockIndex, b: BlockIndex)
    requires b.Linked() && Growing(b) && IsAncestor(a, b)
    ensures a == b || a.nChainWork < b.nChainWork
    decreases b.nHeight
  {
    if a != b {
      assert a.nHeight < b.nHeight;
      WorkGrows(a, b.pprev);
    }
  }

  lemma InvMay(s: Headers, seen: set<BlockIndex>, block: BlockIndex)
    requires Inv(s, seen) && block.Linked()
    ensures MayAppend(s, block, false) && (block.pprev != null && s.tip != null ==> MayAppend(s, block, true))
  {
  }

  lemma MovedAt(tips: seq<BlockIndex>, i: nat, b: BlockIndex, k: nat)
    requires i < |tips| && k < |tips|
    ensures |Moved(tips, i, b)| == |tips|
    ensures Moved(tips, i, b)[k] == if k == |tips| - 1 then b else tips[if k < i then k else k + 1]
  {
  }

  // Moving a tip up to a block above it keeps the tips unrelated and everything covered.
  lemma MovedUp(tips: seq<BlockIndex>, i: nat, block: BlockIndex)
    requires AllLinked(tips) && Antichain(tips) && block.Linked() && i < |tips| && IsAncestor(tips[i], block)
    ensures AllLinked(Moved(tips, i, block)) && Antichain(Moved(tips, i, block))
  {
    var tips' := Moved(tips, i, block);
    forall k | 0 <= k < |tips'|
      ensures tips'[k].Linked()
    {
      MovedAt(tips, i, block, k);
    }
    forall k, l | 0 <= k < |tips'| && 0 <= l < |tips'| && k != l
      ensures !IsAncestor(tips'[k], tips'[l])
    {
      MovedAt(tips, i, block, k);
      MovedAt(tips, i, block, l);
      if l == |tips| - 1 {
        Unrelated(tips, i, block, if k < i then k else k + 1);
      } else if k == |tips| - 1 {
        UnrelatedUp(tips, i, block, if l < i then l else l + 1);
      }
    }
  }

  lemma Unrelated(tips: seq<BlockIndex>, i: nat, block: BlockIndex, k: nat)
    requires AllLinked(tips) && Antichain(tips) && block.Linked() && i < |tips| && IsAncestor(tips[i], block)
    requires k < |tips| && k != i
    ensures !IsAncestor(tips[k], block)
  {
    if IsAncestor(tips[k], block) {
      if tips[i].nHeight <= tips[k].nHeight {
        AncestorsComparable(tips[i], tips[k], block);
      } else {
        AncestorsComparable(tips[k], tips[i], block);
      }
    }
  }

  lemma UnrelatedUp(tips: seq<BlockIndex>, i: nat, block: BlockIndex, k: nat)
    requires AllLinked(tips) && Antichain(tips) && block.Linked() && i < |tips| && IsAncestor(tips[i], block)
    requires k < |tips| && k != i
    ensures !IsAncestor(block, tips[k])
  {
    if IsAncestor(block, tips[k]) {
      AncestorsTransitive(tips[i], block, tips[k]);
    }
  }

  lemma MovedCovers(tips: seq<BlockIndex>, i: nat, block: BlockIndex, b: BlockIndex)
    requires AllLinked(tips) && block.Linked() && i < |tips| && IsAncestor(tips[i], block) && AllLinked(Moved(tips, i, block))
    requires Covered(tips, b) || b == block
    ensures Covered(Moved(tips, i, block), b)
  {
    var tips' := Moved(tips, i, block);
    MovedAt(tips, i, block, |tips| - 1);
    if b == block {
      assert IsAncestor(b, tips'[|tips| - 1]);
    } else {
      var k :| 0 <= k < |tips| && IsAncestor(b, tips[k]);
      if k == i {
        AncestorsTransitive(b, tips[i], block);
        assert IsAncestor(b, tips'[|tips| - 1]);
      } else {
        var l := if k < i then k else k - 1;
        MovedAt(tips, i, block, l);
        assert IsAncestor(b, tips'[l]);
      }
    }
  }

  // Extending a tip.
  lemma ExtendKeeps(s: Headers, seen: set<BlockIndex>, block: BlockIndex, i: nat)
    requires Inv(s, seen) && block.Linked() && Growing(block) && i < |s.tips| && IsAncestor(s.tips[i], block)
    requires s.tips[i] == s.tip ==> s.tip != block
    ensures var tips := Moved(s.tips, i, block);
            var s' := if s.tips[i] == s.tip then Headers(tips, block) else Switched(Headers(tips, s.tip), block).0;
            Inv(s', seen + {block})
  {
    var tips := Moved(s.tips, i, block);
    var s' := if s.tips[i] == s.tip then Headers(tips, block) else Switched(Headers(tips, s.tip), block).0;
    MovedUp(s.tips, i, block);
    WorkGrows(s.tips[i], block);
    hide Antichain, Covered, IsAncestor, Moved;
    forall b | b in seen + {block}
      ensures Covered(tips, b)
    {
      MovedCovers(s.tips, i, block, b);
    }
    forall k | 0 <= k < |tips|
      ensures Growing(tips[k]) && tips[k].nChainWork <= s'.tip.nChainWork
    {
      MovedAt(s.tips, i, block, k);
    }
    MovedHas(s.tips, i, block);
  }

  lemma MovedHas(tips: seq<BlockIndex>, i: nat, block: BlockIndex)
    requires i < |tips|
    ensures block in Moved(tips, i, block)
    ensures forall t :: t in tips && t != tips[i] ==> t in Moved(tips, i, block)
    ensures |Moved(tips, i, block)| == |tips|
  {
    var tips' := Moved(tips, i, block);
    assert tips'[|tips| - 1] == block;
    forall t | t in tips && t != tips[i]
      ensures t in tips'
    {
      var k :| 0 <= k < |tips| && tips[k] == t;
      assert tips'[if k < i then k else k - 1] == t;
    }
  }

  lemma MovedOnly(tips: seq<BlockIndex>, i: nat, block: BlockIndex)
    requires i < |tips|
    ensures forall t :: t in Moved(tips, i, block) ==> t == block || t in tips
  {
  }

  // A new branch.
  lemma BranchKeeps(s: Headers, seen: set<BlockIndex>, block: BlockIndex)
    requires Inv(s, seen) && block.Linked() && Growing(block)
    requires forall i :: 0 <= i < |s.tips| ==> !IsAncestor(s.tips[i], block) && !IsAncestor(block, s.tips[i])
    ensures var tips := s.tips + [block];
            Inv(if s.tip == null then Headers(tips, block) else Switched(Headers(tips, s.tip), block).0, seen + {block})
  {
    var tips := s.tips + [block];
    forall b | b in seen + {block}
      ensures Covered(tips, b)
    {
      if b == block {
        assert IsAncestor(b, tips[|s.tips|]);
      } else {
        var k :| 0 <= k < |s.tips| && IsAncestor(b, s.tips[k]);
        assert IsAncestor(b, tips[k]);
      }
    }
    assert tips[|s.tips|] == block;
    hide IsAncestor;
    assert s.tip != null ==> s.tip in tips;
  }

  lemma CoveredMore(s: Headers, seen: set<BlockIndex>, block: BlockIndex, i: nat)
    requires Inv(s, seen) && i < |s.tips| && IsAncestor(block, s.tips[i])
    ensures Inv(s, seen + {block})
  {
    hide IsAncestor;
  }

  // A valid header keeps the invariant, and the answer tells whether the main chain has a new
  // tip, which then has more work than the one before.
  lemma AppendKeeps(s: Headers, seen: set<BlockIndex>, block: BlockIndex)
    requires Inv(s, seen) && block.Linked() && Growing(block) && MayAppend(s, block, false)
    ensures var r := Append(s, block, false);
            && Inv(r.0, seen + {block})
            && (r.1 <==> r.0.tip != s.tip)
            && (r.1 && s.tip != null ==> s.tip.nChainWork < r.0.tip.nChainWork)
  {
    var i, j := FirstBelow(s.tips, block), FirstAbove(s.tips, block);
    hide Antichain, Covered, IsAncestor, Moved, Inv;
    InvParts(s, seen);
    if s.tip != null && IsAncestor(block, s.tip) {
      var k :| 0 <= k < |s.tips| && s.tips[k] == s.tip;
      CoveredMore(s, seen, block, k);
    } else if i < |s.tips| {
      SelfAncestor(block);
      WorkGrows(s.tips[i], block);
      ExtendKeeps(s, seen, block, i);
    } else if j < |s.tips| {
      CoveredMore(s, seen, block, j);
    } else {
      BranchKeeps(s, seen, block);
    }
  }

  lemma SelfAncestor(b: BlockIndex)
    requires b.Linked()
    ensures IsAncestor(b, b)
  {
  }

  lemma InvParts(s: Headers, seen: set<BlockIndex>)
    requires Inv(s, seen)
    ensures AllLinked(s.tips) && (s.tip != null ==> s.tip in s.tips) && (s.tip == null ==> s.tips == [])
  {
  }

  // ----- every run

  ghost function AppendAll(s: Headers, seen: set<BlockIndex>, blocks: seq<BlockIndex>): (s': Headers)
    requires Inv(s, seen)
    requires forall i :: 0 <= i < |blocks| ==> blocks[i].Linked() && Growing(blocks[i])
    ensures Inv(s', seen + (set b | b in blocks))
    decreases |blocks|
  {
    if blocks == [] then
      assert seen + (set b | b in blocks) == seen;
      s
    else
      InvMay(s, seen, blocks[0]);
      AppendKeeps(s, seen, blocks[0]);
      assert seen + {blocks[0]} + (set b | b in blocks[1..]) == seen + (set b | b in blocks) by {
        assert blocks == [blocks[0]] + blocks[1..];
      }
      AppendAll(Append(s, blocks[0], false).0, seen + {blocks[0]}, blocks[1..])
  }

  // No header below a tip has more work than the main tip.
  lemma MostWork(s: Headers, seen: set<BlockIndex>, b: BlockIndex)
    requires Inv(s, seen) && b in seen
    ensures s.tip != null && b.nChainWork <= s.tip.nChainWork
  {
    assert Covered(s.tips, b);
    var i :| 0 <= i < |s.tips| && IsAncestor(b, s.tips[i]);
    WorkGrows(b, s.tips[i]);
  }

  // From nothing, in any order: no tip is below another, every header is below some tip, and
  // no header has more work than the main tip.
  lemma EveryRun(blocks: seq<BlockIndex>)
    requires forall i :: 0 <= i < |blocks| ==> blocks[i].Linked() && Growing(blocks[i])
    ensures var s := AppendAll(Headers([], null), {}, blocks);
            && AllLinked(s.tips) && Antichain(s.tips)
            && (forall b :: b in blocks ==> Covered(s.tips, b) && s.tip != null && b.nChainWork <= s.tip.nChainWork)
            && (s.tip != null ==> s.tip in s.tips)
  {
    var s := AppendAll(Headers([], null), {}, blocks);
    var none: set<BlockIndex> := {};
    var seen := none + (set b | b in blocks);
    hide Antichain, Covered, Growing;
    forall b | b in blocks
      ensures Covered(s.tips, b) && s.tip != null && b.nChainWork <= s.tip.nChainWork
    {
      assert b in seen;
      MostWork(s, seen, b);
    }
  }

  // ----- headers marked as failed

  // Marking a header as failed does not always take it off the main chain.  It stays when only
  // a tip on another branch, first in the list, was cut back below it, and it even becomes the
  // main tip when no tip knew it and it has more work.
  lemma FailedStaysIff(s: Headers, seen: set<BlockIndex>, block: BlockIndex)
    requires Inv(s, seen) && block.Linked() && block.pprev != null && s.tip != null && MayAppend(s, block, true)
    ensures var s' := Append(s, block, true).0;
            s'.tip != null && s'.tip.Linked()
            && (IsAncestor(block, s'.tip) <==>
                  if FirstBelow(s.tips, block) < |s.tips| then false
                  else if FirstAbove(s.tips, block) < |s.tips| then
                    s.tips[FirstAbove(s.tips, block)] != s.tip && IsAncestor(block, s.tip)
                  else s.tip.nChainWork < block.nChainWork)
  {
    var i, j := FirstBelow(s.tips, block), FirstAbove(s.tips, block);
    var k :| 0 <= k < |s.tips| && s.tips[k] == s.tip;
    SelfAncestor(block);
    SelfAncestor(s.tip);
    if i < |s.tips| {
      if i != k {
        UnrelatedUp(s.tips, i, block, k);
      }
    } else if j < |s.tips| {
      assert j != k ==> !IsAncestor(s.tips[j], s.tips[k]);
    }
  }
}
