/** The block tree and the selected chain in it. */
module Chains {
  import opened Wrappers
  import opened Ledger

  datatype Block = Block(parent: BlockID, height: nat)

  /** `blocks` is the tree, `best` the selected chain from genesis to tip, `bodies` the blocks the
      node can still load in full. */
  datatype Chain = Chain(blocks: map<BlockID, Block>, best: seq<BlockID>, bodies: set<BlockID>) {

    ghost predicate WellFormed() {
      && 0 < |best|
      && (forall h :: 0 <= h < |best| ==> best[h] in blocks && blocks[best[h]].height == h)
      && (forall h :: 0 < h < |best| ==> blocks[best[h]].parent == best[h - 1])
      && (forall b :: b in blocks && blocks[b].height == 0 ==> b == best[0])
      && (forall b {:trigger blocks[b].parent} :: b in blocks && 0 < blocks[b].height ==>
            blocks[b].parent in blocks && blocks[blocks[b].parent].height == blocks[b].height - 1)
      && bodies <= blocks.Keys
    }

    predicate Known(i: ChainIndex) {
      i.id in blocks && blocks[i.id].height == i.height
    }

    /** The selected block at a height, if the selected chain is that long. */
    function BestIndex(height: nat): (r: Option<ChainIndex>) {
      if height < |best| then Some(ChainIndex(height, best[height])) else None
    }

    predicate OnBest(i: ChainIndex) {
      BestIndex(i.height) == Some(i)
    }

    function Tip(): (r: ChainIndex)
      requires 0 < |best|
    {
      ChainIndex(|best| - 1, best[|best| - 1])
    }

    function Parent(i: ChainIndex): (r: ChainIndex)
      requires WellFormed() && Known(i) && 0 < i.height
    {
      ChainIndex(i.height - 1, blocks[i.id].parent)
    }

    /** The block at height `h` on the way from genesis to `i`. */
    function AncestorAt(i: ChainIndex, h: nat): (r: ChainIndex)
      requires WellFormed() && Known(i) && h <= i.height
      ensures Known(r) && r.height == h
      decreases i.height
    {
      if h == i.height then i else AncestorAt(Parent(i), h)
    }

    ghost predicate IsAncestor(a: ChainIndex, i: ChainIndex)
      requires WellFormed() && Known(i)
    {
      a.height <= i.height && AncestorAt(i, a.height) == a
    }

    /** The last common ancestor of two blocks. */
    function Meet(i: ChainIndex, j: ChainIndex): (r: ChainIndex)
      requires WellFormed() && Known(i) && Known(j)
      ensures Known(r) && r.height <= i.height && r.height <= j.height
      decreases i.height + j.height
    {
      if i == j then i
      else if j.height < i.height then Meet(Parent(i), j)
      else if i.height < j.height then Meet(i, Parent(j))
      else Meet(Parent(i), Parent(j))
    }

    /** The ancestors of a block are what following its parents leads to. */
    lemma {:induction false} AncestorsFollowParents(i: ChainIndex, h: nat)
      requires WellFormed() && Known(i) && 0 < h <= i.height
      ensures AncestorAt(i, i.height) == i
      ensures AncestorAt(i, h).id in blocks && AncestorAt(i, h - 1).id == blocks[AncestorAt(i, h).id].parent
      decreases i.height
    {
      if h < i.height {
        AncestorsFollowParents(Parent(i), h);
      }
    }

    /** The tip is the last block of the selected chain, and a block is selected if it stands there at
        its height. */
    lemma SelectedBlocks(i: ChainIndex)
      requires WellFormed()
      ensures Tip().height + 1 == |best| && Tip().id == best[|best| - 1] && OnBest(Tip())
      ensures OnBest(i) <==> exists k :: 0 <= k < |best| && i.height == k && i.id == best[k]
    {
    }

    lemma {:induction false} AncestorOfAncestor(i: ChainIndex, h: nat, k: nat)
      requires WellFormed() && Known(i) && k <= h <= i.height
      ensures AncestorAt(AncestorAt(i, h), k) == AncestorAt(i, k)
      decreases i.height
    {
      if h < i.height {
        AncestorOfAncestor(Parent(i), h, k);
      }
    }

    /** Going down from the selected chain stays on it. */
    lemma {:induction false} BestAncestor(i: ChainIndex, h: nat)
      requires WellFormed() && OnBest(i) && h <= i.height
      ensures Known(i) && AncestorAt(i, h) == ChainIndex(h, best[h])
      decreases i.height
    {
      if h < i.height {
        BestAncestor(Parent(i), h);
      }
    }

    /** Meet is what its name says: a common ancestor, and no common ancestor is higher. */
    lemma {:induction false} MeetIsHighestCommonAncestor(i: ChainIndex, j: ChainIndex)
      requires WellFormed() && Known(i) && Known(j)
      ensures IsAncestor(Meet(i, j), i) && IsAncestor(Meet(i, j), j)
      ensures forall a :: IsAncestor(a, i) && IsAncestor(a, j) ==> a.height <= Meet(i, j).height
      decreases i.height + j.height
    {
      if i == j {
      } else if j.height < i.height {
        MeetIsHighestCommonAncestor(Parent(i), j);
        forall a | IsAncestor(a, i) && IsAncestor(a, j)
          ensures a.height <= Meet(i, j).height
        {
          assert IsAncestor(a, Parent(i));
        }
      } else if i.height < j.height {
        MeetIsHighestCommonAncestor(i, Parent(j));
        forall a | IsAncestor(a, i) && IsAncestor(a, j)
          ensures a.height <= Meet(i, j).height
        {
          assert IsAncestor(a, Parent(j));
        }
      } else {
        MeetIsHighestCommonAncestor(Parent(i), Parent(j));
        forall a | IsAncestor(a, i) && IsAncestor(a, j)
          ensures a.height <= Meet(i, j).height
        {
          assert IsAncestor(a, Parent(i)) && IsAncestor(a, Parent(j));
        }
      }
    }

    /** The common ancestor is determined by those two properties. */
    lemma MeetIsUnique(i: ChainIndex, j: ChainIndex, m: ChainIndex)
      requires WellFormed() && Known(i) && Known(j)
      requires IsAncestor(m, i) && IsAncestor(m, j)
      requires forall a :: IsAncestor(a, i) && IsAncestor(a, j) ==> a.height <= m.height
      ensures m == Meet(i, j)
    {
      MeetIsHighestCommonAncestor(i, j);
      assert IsAncestor(Meet(i, j), i) && IsAncestor(Meet(i, j), j);
    }

    /** An ancestor of `i` that is not below the meeting point meets `j` at the same place. */
    lemma MeetOfAncestor(i: ChainIndex, j: ChainIndex, h: nat)
      requires WellFormed() && Known(i) && Known(j)
      requires Meet(i, j).height <= h <= i.height
      ensures Meet(AncestorAt(i, h), j) == Meet(i, j)
    {
      var a := AncestorAt(i, h);
      var m := Meet(i, j);
      MeetIsHighestCommonAncestor(i, j);
      AncestorOfAncestor(i, h, m.height);
      assert IsAncestor(m, a);
      forall b | IsAncestor(b, a) && IsAncestor(b, j)
        ensures b.height <= m.height
      {
        AncestorOfAncestor(i, h, b.height);
        assert IsAncestor(b, i);
      }
      MeetIsUnique(a, j, m);
    }

    /** An ancestor meets its descendant at itself. */
    lemma MeetWithDescendant(a: ChainIndex, i: ChainIndex)
      requires WellFormed() && Known(a) && Known(i) && IsAncestor(a, i)
      ensures Meet(a, i) == a && Meet(i, a) == a
    {
      assert IsAncestor(a, a);
      MeetIsUnique(a, i, a);
      MeetIsUnique(i, a, a);
    }

    lemma SelectedAncestorIsCommon(i: ChainIndex, to: ChainIndex, h: nat)
      requires WellFormed() && Known(i) && OnBest(to)
      requires h <= i.height && h <= to.height && OnBest(AncestorAt(i, h))
      ensures IsAncestor(AncestorAt(i, h), i) && Known(to) && IsAncestor(AncestorAt(i, h), to)
    {
      BestAncestor(to, h);
    }

    /** Against a block `to` of the selected chain, the meeting point is the highest ancestor that is
        itself selected and not above `to`: the walk's own stopping test. */
    lemma MeetOnBest(i: ChainIndex, to: ChainIndex)
      requires WellFormed() && Known(i) && OnBest(to)
      ensures Known(to) && OnBest(Meet(i, to))
      ensures forall h :: Meet(i, to).height < h <= i.height ==> !(OnBest(AncestorAt(i, h)) && h <= to.height)
    {
      assert Known(to);
      var m := Meet(i, to);
      MeetIsHighestCommonAncestor(i, to);
      BestAncestor(to, m.height);
      forall h | m.height < h <= i.height
        ensures !(OnBest(AncestorAt(i, h)) && h <= to.height)
      {
        if OnBest(AncestorAt(i, h)) && h <= to.height {
          SelectedAncestorIsCommon(i, to, h);
        }
      }
    }
  }
}
