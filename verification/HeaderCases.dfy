// Two short runs after which a header marked as failed is the tip of, or on, the main chain.
module HeaderCases {
  import opened BlockTree
  import opened HeaderTips

  ghost predicate Child(b: BlockIndex, parent: BlockIndex?, work: nat) {
    && b.pprev == parent && b.nHeight == (if parent == null then 0 else parent.nHeight + 1)
    && b.nChainWork == work
  }

  lemma ChildOk(b: BlockIndex, parent: BlockIndex, work: nat)
    requires parent.Linked() && Growing(parent) && Child(b, parent, work) && parent.nChainWork < work
    ensures b.Linked() && Growing(b)
    ensures forall a :: IsAncestor(a, b) <==> a == b || IsAncestor(a, parent)
  {
    forall a
      ensures IsAncestor(a, b) <==> a == b || IsAncestor(a, parent)
    {
    }
  }

  lemma RootOk(g: BlockIndex, work: nat)
    requires Child(g, null, work)
    ensures g.Linked() && Growing(g) && forall a :: IsAncestor(a, g) <==> a == g
  {
  }

  ghost predicate AllGrowing(blocks: seq<BlockIndex>) {
    forall i :: 0 <= i < |blocks| ==> blocks[i].Linked() && Growing(blocks[i])
  }

  // What becomes of the headers from nothing.
  ghost function FromNothing(blocks: seq<BlockIndex>): Headers
    requires AllGrowing(blocks)
  {
    NothingYet();
    AppendAll(Headers([], null), {}, blocks)
  }

  lemma {:induction false} AppendLast(s: Headers, seen: set<BlockIndex>, blocks: seq<BlockIndex>, b: BlockIndex)
    requires Inv(s, seen) && AllGrowing(blocks) && b.Linked() && Growing(b)
    ensures AllGrowing(blocks + [b])
    ensures var s' := AppendAll(s, seen, blocks);
            MayAppend(s', b, false) && AppendAll(s, seen, blocks + [b]) == Append(s', b, false).0
    decreases |blocks|
  {
    hide Inv, Append, Growing, MayAppend;
    if blocks == [] {
      InvMay(s, seen, b);
      AppendKeeps(s, seen, b);
      assert [b][1..] == [] && [] + [b] == [b];
    } else {
      InvMay(s, seen, blocks[0]);
      AppendKeeps(s, seen, blocks[0]);
      assert (blocks + [b])[1..] == blocks[1..] + [b];
      AppendLast(Append(s, blocks[0], false).0, seen + {blocks[0]}, blocks[1..], b);
    }
  }

  lemma OneMore(blocks: seq<BlockIndex>, b: BlockIndex)
    requires AllGrowing(blocks) && b.Linked() && Growing(b)
    ensures AllGrowing(blocks + [b]) && MayAppend(FromNothing(blocks), b, false)
    ensures FromNothing(blocks + [b]) == Append(FromNothing(blocks), b, false).0
  {
    NothingYet();
    hide Inv, Append, Growing, MayAppend, AppendAll;
    AppendLast(Headers([], null), {}, blocks, b);
  }

  // A genesis block, b on it, and two branches c and d on b, d with more work.
  ghost predicate Fork(g: BlockIndex, b: BlockIndex, c: BlockIndex, d: BlockIndex) {
    Child(g, null, 1) && Child(b, g, 2) && Child(c, b, 3) && Child(d, b, 4) && c != d
  }

  lemma ForkOk(g: BlockIndex, b: BlockIndex, c: BlockIndex, d: BlockIndex)
    requires Fork(g, b, c, d)
    ensures forall x :: x in [g, b, c, d] ==> x.Linked() && Growing(x)
    ensures forall a :: IsAncestor(a, g) <==> a == g
    ensures forall a :: IsAncestor(a, b) <==> a == b || a == g
    ensures forall a :: IsAncestor(a, c) <==> a == c || a == b || a == g
    ensures forall a :: IsAncestor(a, d) <==> a == d || a == b || a == g
  {
    hide IsAncestor, Growing;
    RootOk(g, 1);
    ChildOk(b, g, 2);
    ChildOk(c, b, 3);
    ChildOk(d, b, 4);
  }

  lemma NothingYet()
    ensures Inv(Headers([], null), {})
  {
  }

  lemma Extends(tip: BlockIndex, b: BlockIndex)
    requires tip.Linked() && b.Linked() && IsAncestor(tip, b) && !IsAncestor(b, tip)
    ensures Append(Headers([tip], tip), b, false).0 == Headers([b], b)
  {
    hide IsAncestor;
  }

  lemma Branches(tip: BlockIndex, b: BlockIndex)
    requires tip.Linked() && b.Linked() && !IsAncestor(tip, b) && !IsAncestor(b, tip) && tip.nChainWork < b.nChainWork
    ensures Append(Headers([tip], tip), b, false).0 == Headers([tip, b], b)
  {
    hide IsAncestor;
    assert FirstBelow([tip], b) == 1 == FirstAbove([tip], b);
  }

  lemma ForkSteps(g: BlockIndex, b: BlockIndex, c: BlockIndex, d: BlockIndex)
    requires Fork(g, b, c, d)
    ensures g.Linked() && b.Linked() && c.Linked() && d.Linked() && Growing(g) && Growing(b) && Growing(c) && Growing(d)
    ensures Append(Headers([], null), g, false).0 == Headers([g], g)
    ensures Append(Headers([g], g), b, false).0 == Headers([b], b)
    ensures Append(Headers([b], b), c, false).0 == Headers([c], c)
    ensures Append(Headers([c], c), d, false).0 == Headers([c, d], d)
  {
    hide IsAncestor, Growing, Append;
    ForkOk(g, b, c, d);
    FirstHeader(g);
    Extends(g, b);
    Extends(b, c);
    Branches(c, d);
  }

  // After g, b, c and d the tips are c and d, and d is the main one.
  lemma ForkRun(g: BlockIndex, b: BlockIndex, c: BlockIndex, d: BlockIndex)
    requires Fork(g, b, c, d)
    ensures AllGrowing([g, b, c, d]) && FromNothing([g, b, c, d]) == Headers([c, d], d)
  {
    hide IsAncestor, Growing, Inv, Append, AllGrowing, FromNothing, MayAppend, Fork;
    ForkSteps(g, b, c, d);
    var none: seq<BlockIndex> := [];
    StartsEmpty();
    OneMore(none, g);
    OneMore(none + [g], b);
    OneMore(none + [g] + [b], c);
    OneMore(none + [g] + [b] + [c], d);
    assert none + [g] + [b] + [c] + [d] == [g, b, c, d];
  }

  lemma StartsEmpty()
    ensures AllGrowing([]) && FromNothing([]) == Headers([], null)
  {
  }

  lemma FirstHeader(g: BlockIndex)
    requires g.Linked()
    ensures Append(Headers([], null), g, false).0 == Headers([g], g)
  {
  }

  // Then b fails: only the branch of c, first in the list, is cut back, to g.
  lemma FailedStays(g: BlockIndex, b: BlockIndex, c: BlockIndex, d: BlockIndex)
    requires Fork(g, b, c, d)
    ensures AllGrowing([g, b, c, d])
    ensures var s := FromNothing([g, b, c, d]);
            MayAppend(s, b, true) && Append(s, b, true) == (Headers([d, g], d), false) && IsAncestor(b, d)
  {
    ForkRun(g, b, c, d);
    ForkOk(g, b, c, d);
    hide IsAncestor, Growing, Inv, FromNothing;
    CutBack(b, c, d);
  }

  lemma CutBack(b: BlockIndex, c: BlockIndex, d: BlockIndex)
    requires b.Linked() && c.Linked() && d.Linked() && b.pprev != null && c != d
    requires IsAncestor(b, c) && !IsAncestor(c, b) && !IsAncestor(d, b) && !IsAncestor(c, d)
    ensures Append(Headers([c, d], d), b, true) == (Headers([d, b.pprev], d), false)
  {
    hide IsAncestor;
    assert [c, d][1..] == [d] && Moved([c, d], 0, b.pprev) == [d, b.pprev];
    assert FirstBelow([c, d], b) == 2 && FirstAbove([c, d], b) == 0;
  }

  // A header first seen as failed, with more work than the main tip, becomes the main tip.
  lemma FailedBecomesTip(g: BlockIndex, b: BlockIndex, c: BlockIndex, d: BlockIndex, failed: BlockIndex)
    requires Fork(g, b, c, d) && Child(failed, g, 5)
    ensures AllGrowing([g, b, c, d])
    ensures var s := FromNothing([g, b, c, d]);
            MayAppend(s, failed, true) && Append(s, failed, true) == (Headers([c, d], failed), true)
  {
    ForkRun(g, b, c, d);
    ForkOk(g, b, c, d);
    ChildOk(failed, g, 5);
    hide IsAncestor, Growing, Inv, FromNothing;
  }
}
