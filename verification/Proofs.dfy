/** Moving a transaction set's accumulator proofs from one block to another.

    The chain manager updates a set along the tree path between two blocks. The daemon never asks
    for a long path at once: `UpdateProofs` walks back to the selected chain and then forward in
    steps of at most 72 blocks. This module proves that the walk amounts to the one direct update. */
module Proofs {
  import opened Wrappers
  import opened Ledger
  import opened Chains

  const STEP: nat := 72

  datatype UpdateError = Cancelled | WaitingForSync | OutsideChain | BasisUnavailable | Rejected

  /** The chain manager's proof arithmetic, one block at a time. `None` is an error; a transaction
      missing from the result was confirmed by the block. `valid(ts, b)` says that the proofs of
      `ts` are right after block `b`. */
  datatype Library = Library(
    apply: (BlockID, seq<Transaction>) -> Option<seq<Transaction>>,
    revert: (BlockID, seq<Transaction>) -> Option<seq<Transaction>>,
    valid: (seq<Transaction>, BlockID) -> bool)
  {
    /** What the daemon relies on: updating keeps proofs right, changes nothing but proofs, and
        leaves the empty set alone. */
    ghost predicate Lawful(c: Chain)
      requires c.WellFormed()
    {
      && (forall b, ts {:trigger apply(b, ts)} ::
            b in c.blocks && 0 < c.blocks[b].height && valid(ts, c.blocks[b].parent) && apply(b, ts).Some? ==>
              valid(apply(b, ts).value, b))
      && (forall b, ts {:trigger revert(b, ts)} ::
            b in c.blocks && 0 < c.blocks[b].height && valid(ts, b) && revert(b, ts).Some? ==>
              valid(revert(b, ts).value, c.blocks[b].parent))
      && (forall b, ts :: apply(b, ts).Some? ==> Reproved(ts, apply(b, ts).value))
      && (forall b, ts :: revert(b, ts).Some? ==> Reproved(ts, revert(b, ts).value))
      && (forall b :: apply(b, []) == Some([]) && revert(b, []) == Some([]))
      && (forall b :: valid([], b))
    }

    /** Applying a block drops only transactions that the block includes; reverting drops none. */
    ghost predicate DropsOnlyIncluded(includes: BlockID -> set<TxID>) {
      && (forall b, ts :: apply(b, ts).Some? ==>
            forall t: Transaction :: t in ts && t.id !in includes(b) ==> Survives(t, apply(b, ts).value))
      && (forall b, ts :: revert(b, ts).Some? ==> forall t :: t in ts ==> Survives(t, revert(b, ts).value))
    }
  }

  ghost predicate SameBody(t: Transaction, u: Transaction) {
    u == t.(proofs := u.proofs)
  }

  /** `us` holds transactions of `ts`, possibly with other proofs. */
  ghost predicate Reproved(ts: seq<Transaction>, us: seq<Transaction>) {
    && |us| <= |ts|
    && forall u :: u in us ==> exists t :: t in ts && SameBody(t, u)
  }

  /** The transaction is still there, possibly with other proofs. */
  ghost predicate Survives(t: Transaction, us: seq<Transaction>) {
    exists u :: u in us && SameBody(t, u)
  }

  lemma ReprovedTransitive(ts: seq<Transaction>, us: seq<Transaction>, vs: seq<Transaction>)
    requires Reproved(ts, us) && Reproved(us, vs)
    ensures Reproved(ts, vs)
  {
  }

  // ----- the direct update -----

  /** Revert the blocks from `i` down to height `h`. */
  function RevertTo(c: Chain, lib: Library, ts: seq<Transaction>, i: ChainIndex, h: nat): (r: Option<seq<Transaction>>)
    requires c.WellFormed() && c.Known(i) && h <= i.height
    decreases i.height
  {
    if i.height == h then Some(ts)
    else match lib.revert(i.id, ts)
      case None => None
      case Some(us) => RevertTo(c, lib, us, c.Parent(i), h)
  }

  /** Apply the blocks above height `h` up to `j`. */
  function ApplyFrom(c: Chain, lib: Library, ts: seq<Transaction>, h: nat, j: ChainIndex): (r: Option<seq<Transaction>>)
    requires c.WellFormed() && c.Known(j) && h <= j.height
    decreases j.height
  {
    if j.height == h then Some(ts)
    else match ApplyFrom(c, lib, ts, h, c.Parent(j))
      case None => None
      case Some(us) => lib.apply(j.id, us)
  }

  /** The whole update in one go: back to the common ancestor, then forward. */
  function Direct(c: Chain, lib: Library, ts: seq<Transaction>, i: ChainIndex,
                  j: ChainIndex): (r: Option<seq<Transaction>>)
    requires c.WellFormed() && c.Known(i) && c.Known(j)
  {
    var m := c.Meet(i, j);
    match RevertTo(c, lib, ts, i, m.height)
    case None => None
    case Some(us) => ApplyFrom(c, lib, us, m.height, j)
  }

  /** The library call as the daemon makes it, blocks outside the tree included. */
  function UpdateV2TransactionSet(c: Chain, lib: Library, ts: seq<Transaction>, i: ChainIndex,
                                  j: ChainIndex): (r: Option<seq<Transaction>>)
    requires c.WellFormed()
  {
    if c.Known(i) && c.Known(j) then Direct(c, lib, ts, i, j) else None
  }

  /** The direct update between neighbours: the block's own arithmetic, once. */
  lemma DirectOneBlock(c: Chain, lib: Library, ts: seq<Transaction>, j: ChainIndex)
    requires c.WellFormed() && c.Known(j) && 0 < j.height
    ensures c.Known(ChainIndex(j.height - 1, c.blocks[j.id].parent))
    ensures var i := ChainIndex(j.height - 1, c.blocks[j.id].parent);
            && Direct(c, lib, ts, i, j) == lib.apply(j.id, ts) && Direct(c, lib, ts, j, i) == lib.revert(j.id, ts)
            && Direct(c, lib, ts, j, j) == Some(ts)
  {
    var i := c.Parent(j);
    assert c.Meet(i, i) == i && c.Meet(j, j) == j;
    assert c.Meet(i, j) == c.Meet(i, c.Parent(j)) && c.Meet(j, i) == c.Meet(c.Parent(j), i);
    assert ApplyFrom(c, lib, ts, i.height, i) == Some(ts) && RevertTo(c, lib, ts, i, i.height) == Some(ts);
    if lib.revert(j.id, ts).Some? {
      var us := lib.revert(j.id, ts).value;
      assert RevertTo(c, lib, us, i, i.height) == Some(us) && ApplyFrom(c, lib, us, i.height, i) == Some(us);
    }
  }

  lemma {:induction false} RevertKeepsValid(c: Chain, lib: Library, ts: seq<Transaction>, i: ChainIndex, h: nat)
    requires c.WellFormed() && lib.Lawful(c) && c.Known(i) && h <= i.height
    ensures var r := RevertTo(c, lib, ts, i, h);
            r.Some? ==> Reproved(ts, r.value) && (lib.valid(ts, i.id) ==> lib.valid(r.value, c.AncestorAt(i, h).id))
    decreases i.height
  {
    if i.height == h {
      forall t | t in ts ensures SameBody(t, t) {}
    } else if lib.revert(i.id, ts).Some? {
      var us := lib.revert(i.id, ts).value;
      RevertKeepsValid(c, lib, us, c.Parent(i), h);
      if RevertTo(c, lib, ts, i, h).Some? {
        ReprovedTransitive(ts, us, RevertTo(c, lib, ts, i, h).value);
      }
    }
  }

  lemma {:induction false} ApplyKeepsValid(c: Chain, lib: Library, ts: seq<Transaction>, h: nat, j: ChainIndex)
    requires c.WellFormed() && lib.Lawful(c) && c.Known(j) && h <= j.height
    ensures var r := ApplyFrom(c, lib, ts, h, j);
            r.Some? ==> Reproved(ts, r.value) && (lib.valid(ts, c.AncestorAt(j, h).id) ==> lib.valid(r.value, j.id))
    decreases j.height
  {
    if j.height == h {
      forall t | t in ts ensures SameBody(t, t) {}
    } else {
      ApplyKeepsValid(c, lib, ts, h, c.Parent(j));
      var u := ApplyFrom(c, lib, ts, h, c.Parent(j));
      if u.Some? && lib.apply(j.id, u.value).Some? {
        ReprovedTransitive(ts, u.value, lib.apply(j.id, u.value).value);
      }
    }
  }

  /** The direct update gives proofs that are right at its destination and changes only proofs. */
  lemma DirectKeepsValid(c: Chain, lib: Library, ts: seq<Transaction>, i: ChainIndex, j: ChainIndex)
    requires c.WellFormed() && lib.Lawful(c) && c.Known(i) && c.Known(j)
    ensures var r := Direct(c, lib, ts, i, j);
            r.Some? ==> Reproved(ts, r.value) && (lib.valid(ts, i.id) ==> lib.valid(r.value, j.id))
  {
    var m := c.Meet(i, j);
    c.MeetIsHighestCommonAncestor(i, j);
    RevertKeepsValid(c, lib, ts, i, m.height);
    var u := RevertTo(c, lib, ts, i, m.height);
    if u.Some? {
      ApplyKeepsValid(c, lib, u.value, m.height, j);
      var v := ApplyFrom(c, lib, u.value, m.height, j);
      if v.Some? {
        ReprovedTransitive(ts, u.value, v.value);
      }
    }
  }

  lemma {:induction false} RevertKeepsAll(c: Chain, lib: Library, includes: BlockID -> set<TxID>, ts: seq<Transaction>,
                                          i: ChainIndex, h: nat, t: Transaction)
    requires c.WellFormed() && lib.DropsOnlyIncluded(includes) && c.Known(i) && h <= i.height && t in ts
    ensures RevertTo(c, lib, ts, i, h).Some? ==> Survives(t, RevertTo(c, lib, ts, i, h).value)
    decreases i.height
  {
    if i.height == h {
      assert SameBody(t, t);
    } else if lib.revert(i.id, ts).Some? {
      var us := lib.revert(i.id, ts).value;
      var u :| u in us && SameBody(t, u);
      RevertKeepsAll(c, lib, includes, us, c.Parent(i), h, u);
    }
  }

  lemma {:induction false} ApplyKeepsUnincluded(c: Chain, lib: Library, includes: BlockID -> set<TxID>,
                                                ts: seq<Transaction>, h: nat, j: ChainIndex, t: Transaction)
    requires c.WellFormed() && lib.DropsOnlyIncluded(includes) && c.Known(j) && h <= j.height && t in ts
    requires forall k :: h < k <= j.height ==> t.id !in includes(c.AncestorAt(j, k).id)
    ensures ApplyFrom(c, lib, ts, h, j).Some? ==> Survives(t, ApplyFrom(c, lib, ts, h, j).value)
    decreases j.height
  {
    if j.height == h {
      assert SameBody(t, t);
    } else {
      assert c.AncestorAt(j, j.height) == j;
      forall k | h < k <= j.height - 1 ensures t.id !in includes(c.AncestorAt(c.Parent(j), k).id) {
        assert c.AncestorAt(j, k) == c.AncestorAt(c.Parent(j), k);
      }
      ApplyKeepsUnincluded(c, lib, includes, ts, h, c.Parent(j), t);
      var before := ApplyFrom(c, lib, ts, h, c.Parent(j));
      if before.Some? && lib.apply(j.id, before.value).Some? {
        var u :| u in before.value && SameBody(t, u);
        var v :| v in lib.apply(j.id, before.value).value && SameBody(u, v);
        assert SameBody(t, v);
      }
    }
  }

  /** The direct update drops a transaction only if a block it applies includes it. */
  lemma DirectKeepsUnincluded(c: Chain, lib: Library, includes: BlockID -> set<TxID>, ts: seq<Transaction>,
                              i: ChainIndex, j: ChainIndex, t: Transaction)
    requires c.WellFormed() && lib.DropsOnlyIncluded(includes) && c.Known(i) && c.Known(j) && t in ts
    requires forall k :: c.Meet(i, j).height < k <= j.height ==> t.id !in includes(c.AncestorAt(j, k).id)
    ensures Direct(c, lib, ts, i, j).Some? ==> Survives(t, Direct(c, lib, ts, i, j).value)
  {
    var h := c.Meet(i, j).height;
    RevertKeepsAll(c, lib, includes, ts, i, h, t);
    var reverted := RevertTo(c, lib, ts, i, h);
    if reverted.Some? {
      var u :| u in reverted.value && SameBody(t, u);
      ApplyKeepsUnincluded(c, lib, includes, reverted.value, h, j, u);
    }
  }

  lemma {:induction false} EmptyStaysEmpty(c: Chain, lib: Library, i: ChainIndex, j: ChainIndex, h: nat)
    requires c.WellFormed() && lib.Lawful(c) && c.Known(i) && c.Known(j)
    ensures h <= i.height ==> RevertTo(c, lib, [], i, h) == Some([])
    ensures h <= j.height ==> ApplyFrom(c, lib, [], h, j) == Some([])
    decreases i.height + j.height
  {
    if h < i.height {
      EmptyStaysEmpty(c, lib, c.Parent(i), j, h);
    }
    if h < j.height {
      EmptyStaysEmpty(c, lib, i, c.Parent(j), h);
    }
  }

  // ----- splitting the direct update -----

  lemma {:induction false} RevertSplits(c: Chain, lib: Library, ts: seq<Transaction>, i: ChainIndex, k: nat, h: nat)
    requires c.WellFormed() && c.Known(i) && h <= k <= i.height
    ensures RevertTo(c, lib, ts, i, h) ==
            match RevertTo(c, lib, ts, i, k)
            case None => None
            case Some(us) => RevertTo(c, lib, us, c.AncestorAt(i, k), h)
    decreases i.height
  {
    if k < i.height && lib.revert(i.id, ts).Some? {
      RevertSplits(c, lib, lib.revert(i.id, ts).value, c.Parent(i), k, h);
    }
  }

  lemma {:induction false} ApplySplits(c: Chain, lib: Library, ts: seq<Transaction>, h: nat, k: nat, j: ChainIndex)
    requires c.WellFormed() && c.Known(j) && h <= k <= j.height
    ensures ApplyFrom(c, lib, ts, h, j) ==
            match ApplyFrom(c, lib, ts, h, c.AncestorAt(j, k))
            case None => None
            case Some(us) => ApplyFrom(c, lib, us, k, j)
    decreases j.height
  {
    if k < j.height {
      ApplySplits(c, lib, ts, h, k, c.Parent(j));
    }
  }

  /** Stopping at any block between `i` and the meeting point and going on from there changes nothing. */
  lemma BackwardSplit(c: Chain, lib: Library, ts: seq<Transaction>, i: ChainIndex, j: ChainIndex, h: nat)
    requires c.WellFormed() && c.Known(i) && c.Known(j) && c.Meet(i, j).height <= h <= i.height
    ensures c.Meet(c.AncestorAt(i, h), j) == c.Meet(i, j)
    ensures Direct(c, lib, ts, i, j) ==
            match Direct(c, lib, ts, i, c.AncestorAt(i, h))
            case None => None
            case Some(us) => Direct(c, lib, us, c.AncestorAt(i, h), j)
  {
    c.AncestorOfAncestor(i, h, h);
    c.MeetOfAncestor(i, j, h);
    c.MeetWithDescendant(c.AncestorAt(i, h), i);
    RevertSplits(c, lib, ts, i, h, c.Meet(i, j).height);
  }

  /** Nor does stopping at any block between an ancestor `i` and `j`. */
  lemma ForwardSplit(c: Chain, lib: Library, ts: seq<Transaction>, i: ChainIndex, j: ChainIndex, h: nat)
    requires c.WellFormed() && c.Known(i) && c.Known(j) && c.IsAncestor(i, j) && i.height <= h <= j.height
    ensures c.Meet(i, j) == i && c.Meet(c.AncestorAt(j, h), j) == c.AncestorAt(j, h)
    ensures c.IsAncestor(i, c.AncestorAt(j, h)) && c.IsAncestor(c.AncestorAt(j, h), j)
    ensures Direct(c, lib, ts, i, j) ==
            match Direct(c, lib, ts, i, c.AncestorAt(j, h))
            case None => None
            case Some(us) => Direct(c, lib, us, c.AncestorAt(j, h), j)
  {
    var next := c.AncestorAt(j, h);
    c.AncestorOfAncestor(j, h, i.height);
    c.AncestorOfAncestor(j, h, h);
    c.MeetWithDescendant(i, j);
    c.MeetWithDescendant(i, next);
    c.MeetWithDescendant(next, j);
    ApplySplits(c, lib, ts, i.height, h, j);
  }

  // ----- the walk -----

  /** The walk stops going back at a selected block that is not above its destination. */
  predicate OnWay(c: Chain, i: ChainIndex, to: ChainIndex) {
    c.OnBest(i) && i.height <= to.height
  }

  ghost predicate BodyMissing(c: Chain, i: ChainIndex, to: ChainIndex)
    requires c.WellFormed() && c.Known(i) && c.Known(to)
  {
    exists h :: c.Meet(i, to).height < h <= i.height && c.AncestorAt(i, h).id !in c.bodies
  }

  /** One parent further back, as long as the meeting point is not reached; the walk's test sees
      exactly when it is. */
  lemma ParentStep(c: Chain, at: ChainIndex, h: nat, to: ChainIndex)
    requires c.WellFormed() && c.Known(at) && c.OnBest(to) && c.Known(to)
    requires c.Meet(at, to).height < h <= at.height
    ensures c.AncestorAt(at, h - 1) == c.Parent(c.AncestorAt(at, h))
    ensures OnWay(c, c.AncestorAt(at, h - 1), to) <==> h - 1 == c.Meet(at, to).height
  {
    assert c.AncestorAt(at, h - 1) == c.Parent(c.AncestorAt(at, h)) by {
      c.AncestorOfAncestor(at, h, h - 1);
    }
    StopsAtMeet(c, at, h - 1, to);
  }

  /** At or above the meeting point the walk can turn forward exactly at the meeting point. */
  lemma StopsAtMeet(c: Chain, at: ChainIndex, h: nat, to: ChainIndex)
    requires c.WellFormed() && c.Known(at) && c.OnBest(to) && c.Known(to)
    requires c.Meet(at, to).height <= h <= at.height
    ensures OnWay(c, c.AncestorAt(at, h), to) <==> h == c.Meet(at, to).height
  {
    c.MeetOnBest(at, to);
    c.MeetIsHighestCommonAncestor(at, to);
  }

  /** One stretch back: at most 72 parents, ending early where the walk can turn forward. */
  method StepBack(c: Chain, at: ChainIndex, to: ChainIndex) returns (r: Result<ChainIndex, UpdateError>)
    requires c.WellFormed() && !OnWay(c, at, to)
    ensures r.Success? ==> r.value.height < at.height <= r.value.height + STEP
    ensures r.Failure? ==> r.error == OutsideChain || r.error == BasisUnavailable
    ensures r.Success? && c.Known(at) ==> r.value == c.AncestorAt(at, r.value.height)
    ensures c.Known(at) && c.OnBest(to) ==>
              match r
              case Success(next) => c.Meet(at, to).height <= next.height &&
                                    (next.height == c.Meet(at, to).height || at.height == next.height + STEP)
              case Failure(e) => e == BasisUnavailable && BodyMissing(c, at, to)
  {
    ghost var tracked := c.Known(at) && c.OnBest(to);
    if tracked {
      MeetsBelow(c, at, to);
    }
    var next := at;
    for k := 0 to STEP
      invariant next.height == at.height - k
      invariant c.Known(at) ==> c.Known(next) && next == c.AncestorAt(at, next.height)
      invariant tracked ==> c.Meet(at, to).height < next.height
    {
      if next.height == 0 {
        return Failure(OutsideChain);
      }
      if next.id !in c.bodies {
        return Failure(BasisUnavailable);
      }
      if c.Known(at) {
        c.AncestorOfAncestor(at, next.height, next.height - 1);
      }
      if tracked {
        ParentStep(c, at, next.height, to);
      }
      next := ChainIndex(next.height - 1, c.blocks[next.id].parent);
      if OnWay(c, next, to) {
        return Success(next);
      }
    }
    return Success(next);
  }

  lemma MeetsBelow(c: Chain, at: ChainIndex, to: ChainIndex)
    requires c.WellFormed() && c.Known(at) && c.OnBest(to) && c.Known(to) && !OnWay(c, at, to)
    ensures c.Meet(at, to).height < at.height
  {
    c.MeetOnBest(at, to);
    c.MeetIsHighestCommonAncestor(at, to);
  }

  /** The number of steps that cover a distance. */
  function CeilDiv(x: nat): (r: nat) {
    if x == 0 then 0 else CeilDiv(x - Min(x, STEP)) + 1
  }

  lemma {:induction false} CeilDivIsCeiling(x: nat)
    ensures CeilDiv(x) == (x + 71) / 72
  {
    if x > 0 {
      CeilDivIsCeiling(x - Min(x, STEP));
    }
  }

  /** The number of library calls a walk from `i` to `to` takes. */
  function Calls(c: Chain, i: ChainIndex, to: ChainIndex): (r: nat)
    requires c.WellFormed() && c.Known(i) && c.Known(to)
  {
    CallsVia(i.height, c.Meet(i, to).height, to.height)
  }

  /** The same for heights: down to the lowest block, then up. */
  function CallsVia(from: nat, low: nat, to: nat): (r: nat)
    requires low <= from && low <= to
  {
    CeilDiv(from - low) + CeilDiv(to - low)
  }

  /** One library call spans at most 72 blocks, all in one direction. */
  ghost predicate Hop(c: Chain, a: ChainIndex, b: ChainIndex)
    requires c.WellFormed()
  {
    && c.Known(a) && c.Known(b)
    && ((b.height < a.height <= b.height + STEP && c.IsAncestor(b, a)) ||
        (a.height < b.height <= a.height + STEP && c.OnBest(a) && c.OnBest(b) && c.IsAncestor(a, b)))
  }

  /** What one call spans: at most 72 blocks, back along the ancestors of `a` or forward on the selected chain. */
  lemma HopSpans(c: Chain, a: ChainIndex, b: ChainIndex)
    requires c.WellFormed() && Hop(c, a, b)
    ensures a.height <= b.height + 72 && b.height <= a.height + 72 && a.height != b.height
    ensures b.height < a.height ==> c.AncestorAt(a, b.height) == b
    ensures a.height < b.height ==> b.height < |c.best| && c.best[a.height] == a.id && c.best[b.height] == b.id
  {
  }

  /** How many calls there are: ceil(reverted / 72) + ceil(applied / 72). */
  lemma CallsAreCeilings(c: Chain, i: ChainIndex, to: ChainIndex)
    requires c.WellFormed() && c.Known(i) && c.Known(to)
    ensures var m := c.Meet(i, to).height; Calls(c, i, to) == (i.height - m + 71) / 72 + (to.height - m + 71) / 72
  {
    ViaCeilings(i.height, c.Meet(i, to).height, to.height);
  }

  lemma ViaCeilings(from: nat, low: nat, to: nat)
    requires low <= from && low <= to
    ensures CallsVia(from, low, to) == (from - low + 71) / 72 + (to - low + 71) / 72
  {
    CeilDivIsCeiling(from - low);
    CeilDivIsCeiling(to - low);
  }

  /** Every block stood on is at or above height `floor`, and one call leads from each to the next. */
  ghost predicate Hops(c: Chain, hops: seq<ChainIndex>, floor: nat)
    requires c.WellFormed() && 0 < |hops|
  {
    var n := |hops| - 1;
    && floor <= hops[n].height
    && (0 < n ==> Hop(c, hops[n - 1], hops[n]) && Hops(c, hops[..n], floor))
  }

  /** The blocks a walk from `from` to `to` has stood on so far. */
  ghost predicate Trail(c: Chain, from: ChainIndex, to: ChainIndex, hops: seq<ChainIndex>)
    requires c.WellFormed() && c.Known(from) && c.Known(to)
  {
    && 0 < |hops| && hops[0] == from && c.Known(hops[|hops| - 1])
    && var at, m := hops[|hops| - 1], c.Meet(from, to);
    && Hops(c, hops, m.height)
    && |hops| - 1 + Calls(c, at, to) == Calls(c, from, to)
    && (if OnWay(c, at, to) then m in hops else c.IsAncestor(at, from) && m.height <= at.height)
  }

  lemma OnWayMeets(c: Chain, at: ChainIndex, to: ChainIndex)
    requires c.WellFormed() && c.Known(at) && c.Known(to) && c.OnBest(to) && OnWay(c, at, to)
    ensures c.IsAncestor(at, to) && c.Meet(at, to) == at
  {
    c.BestAncestor(to, at.height);
    c.MeetWithDescendant(at, to);
  }

  lemma TrailStarts(c: Chain, from: ChainIndex, to: ChainIndex)
    requires c.WellFormed() && c.Known(from) && c.Known(to) && c.OnBest(to)
    ensures Trail(c, from, to, [from])
  {
    if OnWay(c, from, to) {
      OnWayMeets(c, from, to);
    }
  }

  /** `next` is a proper stop for a walk that stands at `at`: one call leads there, one call fewer
      is left, and it is on the path that is left. */
  ghost predicate Stop(c: Chain, at: ChainIndex, to: ChainIndex, next: ChainIndex)
    requires c.WellFormed() && c.Known(at) && c.Known(to)
  {
    && Hop(c, at, next)
    && Calls(c, at, to) == Calls(c, next, to) + 1
    && if OnWay(c, at, to)
       then OnWay(c, next, to) && at.height <= next.height && c.IsAncestor(next, to)
       else
         && c.Meet(at, to).height <= next.height && c.IsAncestor(next, at)
         && (OnWay(c, next, to) ==> next == c.Meet(at, to))
  }

  lemma BackwardStop(c: Chain, at: ChainIndex, to: ChainIndex, h: nat)
    requires c.WellFormed() && c.Known(at) && c.Known(to) && c.OnBest(to) && !OnWay(c, at, to)
    requires c.Meet(at, to).height <= h < at.height <= h + STEP
    requires h == c.Meet(at, to).height || at.height == h + STEP
    ensures Stop(c, at, to, c.AncestorAt(at, h))
  {
    var next := c.AncestorAt(at, h);
    assert c.IsAncestor(next, at);
    BackwardMeets(c, at, to, next);
    BackwardCalls(c, at, to, next, c.Meet(at, to).height);
    BackwardHop(c, at, next);
  }

  lemma BackwardHop(c: Chain, at: ChainIndex, next: ChainIndex)
    requires c.WellFormed() && c.Known(at) && c.Known(next) && c.IsAncestor(next, at)
    requires next.height < at.height <= next.height + STEP
    ensures Hop(c, at, next)
  {
  }

  lemma BackwardCalls(c: Chain, at: ChainIndex, to: ChainIndex, next: ChainIndex, m: nat)
    requires c.WellFormed() && c.Known(at) && c.Known(to) && c.Known(next)
    requires c.Meet(at, to).height == m == c.Meet(next, to).height
    requires next.height < at.height <= next.height + STEP && (next.height == m || at.height == next.height + STEP)
    ensures Calls(c, at, to) == Calls(c, next, to) + 1
  {
    OneCallLess(at.height, next.height, m, to.height);
  }

  lemma BackwardMeets(c: Chain, at: ChainIndex, to: ChainIndex, next: ChainIndex)
    requires c.WellFormed() && c.Known(at) && c.Known(to) && c.OnBest(to) && c.Known(next)
    requires c.IsAncestor(next, at) && c.Meet(at, to).height <= next.height
    ensures c.Meet(next, to) == c.Meet(at, to)
    ensures OnWay(c, next, to) ==> next == c.Meet(at, to)
  {
    c.MeetOfAncestor(at, to, next.height);
    if OnWay(c, next, to) {
      OnWayMeets(c, next, to);
    }
  }

  lemma ForwardStop(c: Chain, at: ChainIndex, to: ChainIndex, next: ChainIndex)
    requires c.WellFormed() && c.Known(at) && c.Known(to) && c.OnBest(to) && OnWay(c, at, to)
    requires at.height < to.height && next.height == Min(at.height + STEP, to.height) && c.OnBest(next)
    ensures c.Known(next) && Stop(c, at, to, next)
  {
    OnWayMeets(c, at, next);
    OnWayMeets(c, next, to);
    ForwardCalls(c, at, to, next);
    assert Hop(c, at, next);
  }

  lemma ForwardCalls(c: Chain, at: ChainIndex, to: ChainIndex, next: ChainIndex)
    requires c.WellFormed() && c.Known(at) && c.Known(to) && c.Known(next) && c.OnBest(to)
    requires OnWay(c, at, to) && OnWay(c, next, to)
    requires at.height < to.height && next.height == Min(at.height + STEP, to.height)
    ensures Calls(c, at, to) == Calls(c, next, to) + 1
  {
    OnWayMeets(c, at, to);
    OnWayMeets(c, next, to);
  }

  lemma OneCallLess(a: nat, n: nat, low: nat, to: nat)
    requires low <= n < a <= n + STEP && (n == low || a == n + STEP) && low <= to
    ensures CallsVia(a, low, to) == CallsVia(n, low, to) + 1
  {
  }

  lemma StopSplits(c: Chain, lib: Library, ts: seq<Transaction>, at: ChainIndex, to: ChainIndex, next: ChainIndex)
    requires c.WellFormed() && c.Known(at) && c.Known(to) && c.OnBest(to) && c.Known(next) && Stop(c, at, to, next)
    ensures Direct(c, lib, ts, at, to) ==
            match Direct(c, lib, ts, at, next)
            case None => None
            case Some(us) => Direct(c, lib, us, next, to)
  {
    if OnWay(c, at, to) {
      OnWayMeets(c, at, to);
      ForwardSplit(c, lib, ts, at, to, next.height);
    } else {
      BackwardSplit(c, lib, ts, at, to, next.height);
    }
  }

  lemma TrailGrows(c: Chain, from: ChainIndex, to: ChainIndex, hops: seq<ChainIndex>, next: ChainIndex)
    requires c.WellFormed() && c.Known(from) && c.Known(to) && Trail(c, from, to, hops) && c.Known(next)
    requires Stop(c, hops[|hops| - 1], to, next)
    ensures Trail(c, from, to, hops + [next])
  {
    var at := hops[|hops| - 1];
    assert (hops + [next])[..|hops|] == hops;
    assert next in hops + [next];
    if !OnWay(c, at, to) {
      TrailMeets(c, from, to, hops);
      assert c.IsAncestor(next, from) by {
        c.AncestorOfAncestor(from, at.height, next.height);
      }
    }
  }

  /** While the walk goes back it meets `to` where it first met it. */
  lemma TrailMeets(c: Chain, from: ChainIndex, to: ChainIndex, hops: seq<ChainIndex>)
    requires c.WellFormed() && c.Known(from) && c.Known(to) && Trail(c, from, to, hops)
    requires !OnWay(c, hops[|hops| - 1], to)
    ensures c.IsAncestor(hops[|hops| - 1], from) && c.Meet(hops[|hops| - 1], to) == c.Meet(from, to)
  {
    c.MeetOfAncestor(from, to, hops[|hops| - 1].height);
  }

  /** While the walk still goes back, what is missing below it was missing from the start. */
  lemma TrailMissing(c: Chain, from: ChainIndex, to: ChainIndex, hops: seq<ChainIndex>)
    requires c.WellFormed() && c.Known(from) && c.Known(to) && Trail(c, from, to, hops)
    requires var at := hops[|hops| - 1]; !OnWay(c, at, to) && BodyMissing(c, at, to)
    ensures BodyMissing(c, from, to)
  {
    var at := hops[|hops| - 1];
    TrailMeets(c, from, to, hops);
    var h :| c.Meet(at, to).height < h <= at.height && c.AncestorAt(at, h).id !in c.bodies;
    c.AncestorOfAncestor(from, at.height, h);
  }

  /** The choice of the next stop. */
  method NextStop(c: Chain, at: ChainIndex, to: ChainIndex) returns (r: Result<ChainIndex, UpdateError>)
    requires c.WellFormed() && at != to
    ensures r.Success? ==> if OnWay(c, at, to)
                           then r.value == to || (OnWay(c, r.value, to) && at.height < r.value.height)
                           else r.value.height < at.height
    ensures r.Failure? ==> r.error == OutsideChain || r.error == BasisUnavailable || r.error == WaitingForSync
    ensures c.Known(at) && c.OnBest(to) ==>
              match r
              case Success(next) => c.Known(next) && Stop(c, at, to, next)
              case Failure(e) => e == BasisUnavailable && !OnWay(c, at, to) && BodyMissing(c, at, to)
  {
    var best := c.BestIndex(at.height);
    if best == Some(at) && at.height < to.height {
      var ahead := c.BestIndex(Min(at.height + STEP, to.height));
      if ahead.None? {
        return Failure(WaitingForSync);
      }
      if c.Known(at) && c.OnBest(to) {
        ForwardStop(c, at, to, ahead.value);
      }
      return Success(ahead.value);
    } else if best == Some(at) && at.height == to.height {
      return Success(to);
    } else {
      r := StepBack(c, at, to);
      if c.Known(at) && c.OnBest(to) && r.Success? {
        BackwardStop(c, at, to, r.value.height);
      }
    }
  }

  /** `us` is `ts` with its proofs moved from block `from` to block `to`: only proofs changed, and
      right proofs stayed right. */
  ghost predicate Moved(lib: Library, ts: seq<Transaction>, from: ChainIndex, us: seq<Transaction>, to: ChainIndex) {
    Reproved(ts, us) && (lib.valid(ts, from.id) ==> lib.valid(us, to.id))
  }

  lemma MoveOn(c: Chain, lib: Library, ts: seq<Transaction>, from: ChainIndex, cur: seq<Transaction>, at: ChainIndex,
               next: ChainIndex)
    requires c.WellFormed() && lib.Lawful(c) && c.Known(at) && Moved(lib, ts, from, cur, at)
    requires UpdateV2TransactionSet(c, lib, cur, at, next).Some?
    ensures c.Known(next) && Moved(lib, ts, from, UpdateV2TransactionSet(c, lib, cur, at, next).value, next)
    ensures UpdateV2TransactionSet(c, lib, cur, at, next).value == [] ==> forall b :: Moved(lib, ts, from, [], b)
  {
    var us := Direct(c, lib, cur, at, next).value;
    DirectKeepsValid(c, lib, cur, at, next);
    ReprovedTransitive(ts, cur, us);
  }

  /** What a call of UpdateProofs may answer. */
  ghost predicate UpdateOutcome(c: Chain, lib: Library, cancelled: nat -> bool, ts: seq<Transaction>,
                                from: ChainIndex, to: ChainIndex, r: Result<seq<Transaction>, UpdateError>)
    requires c.WellFormed() && lib.Lawful(c)
  {
    && (c.Known(from) && c.OnBest(to) ==>
          match r
          case Success(us) => Direct(c, lib, ts, from, to) == Some(us)
          case Failure(Rejected) => Direct(c, lib, ts, from, to) == None
          case Failure(BasisUnavailable) => BodyMissing(c, from, to)
          case Failure(Cancelled) => exists k :: cancelled(k)
          case Failure(_) => false)
    && (c.Known(to) && r.Success? ==> c.Known(from) && Moved(lib, ts, from, r.value, to))
  }

  /** With no shutdown and no pruned block in the way, the walk's answer is the direct update's. */
  lemma OutcomeIsDirect(c: Chain, lib: Library, cancelled: nat -> bool, ts: seq<Transaction>, from: ChainIndex,
                        to: ChainIndex, r: Result<seq<Transaction>, UpdateError>)
    requires c.WellFormed() && lib.Lawful(c) && c.Known(from) && c.OnBest(to)
    requires UpdateOutcome(c, lib, cancelled, ts, from, to, r)
    requires (forall k :: !cancelled(k)) && !BodyMissing(c, from, to)
    ensures r == match Direct(c, lib, ts, from, to)
                 case Some(us) => Success(us)
                 case None => Failure(Rejected)
  {
    match r {
      case Success(us) => assert Direct(c, lib, ts, from, to) == Some(us);
      case Failure(e) => assert e != BasisUnavailable && e != Cancelled && e == Rejected;
    }
  }

  /** What the walk may have stood on: never below the common ancestor, which it reaches exactly,
      and with the exact number of library calls. */
  ghost predicate HopsOutcome(c: Chain, from: ChainIndex, to: ChainIndex, r: Result<seq<Transaction>, UpdateError>,
                              hops: seq<ChainIndex>)
    requires c.WellFormed()
  {
    && 0 < |hops| && hops[0] == from
    && (c.Known(from) && c.OnBest(to) ==>
          && Hops(c, hops, c.Meet(from, to).height)
          && |hops| - 1 <= Calls(c, from, to)
          && (r.Success? && r.value != [] ==>
                hops[|hops| - 1] == to && c.Meet(from, to) in hops && |hops| - 1 == Calls(c, from, to)))
  }

  /** Where a walk stands: at the last of `hops`, with the proofs `cur`. */
  ghost predicate Walk(c: Chain, lib: Library, ts: seq<Transaction>, from: ChainIndex, to: ChainIndex,
                       cur: seq<Transaction>, hops: seq<ChainIndex>)
    requires c.WellFormed()
  {
    && 0 < |hops| && hops[0] == from && (1 < |hops| ==> c.Known(from))
    && var at := hops[|hops| - 1];
    && (c.Known(from) && c.Known(to) ==> c.Known(at) && Moved(lib, ts, from, cur, at))
    && (c.Known(from) && c.OnBest(to) ==>
         Trail(c, from, to, hops) && Direct(c, lib, ts, from, to) == Direct(c, lib, cur, at, to))
  }

  lemma WalkStarts(c: Chain, lib: Library, ts: seq<Transaction>, from: ChainIndex, to: ChainIndex)
    requires c.WellFormed()
    ensures Walk(c, lib, ts, from, to, ts, [from])
  {
    forall t | t in ts ensures SameBody(t, t) {}
    if c.Known(from) && c.OnBest(to) {
      TrailStarts(c, from, to);
    }
  }

  lemma WalkStep(c: Chain, lib: Library, ts: seq<Transaction>, from: ChainIndex, to: ChainIndex,
                 cur: seq<Transaction>, hops: seq<ChainIndex>, next: ChainIndex)
    requires c.WellFormed() && lib.Lawful(c) && Walk(c, lib, ts, from, to, cur, hops)
    requires var at := hops[|hops| - 1]; c.Known(at) && c.OnBest(to) ==> c.Known(next) && Stop(c, at, to, next)
    ensures var r := UpdateV2TransactionSet(c, lib, cur, hops[|hops| - 1], next);
            match r
            case None => c.Known(from) && c.OnBest(to) ==> Direct(c, lib, ts, from, to) == None
            case Some(us) => Walk(c, lib, ts, from, to, us, hops + [next])
  {
    var at := hops[|hops| - 1];
    if c.Known(from) && c.OnBest(to) {
      StopSplits(c, lib, cur, at, to, next);
      TrailGrows(c, from, to, hops, next);
    }
    if c.Known(from) && c.Known(to) && UpdateV2TransactionSet(c, lib, cur, at, next).Some? {
      MoveOn(c, lib, ts, from, cur, at, next);
    }
  }

  lemma NothingLeft(c: Chain, lib: Library, ts: seq<Transaction>, to: ChainIndex)
    requires c.WellFormed() && c.OnBest(to) && c.Known(to)
    ensures OnWay(c, to, to) && Calls(c, to, to) == 0 && Direct(c, lib, ts, to, to) == Some(ts)
  {
    assert c.Meet(to, to) == to;
    assert RevertTo(c, lib, ts, to, to.height) == Some(ts);
    assert ApplyFrom(c, lib, ts, to.height, to) == Some(ts);
  }

  lemma DirectOfEmpty(c: Chain, lib: Library, i: ChainIndex, j: ChainIndex)
    requires c.WellFormed() && lib.Lawful(c) && c.Known(i) && c.Known(j)
    ensures Direct(c, lib, [], i, j) == Some([])
  {
    EmptyStaysEmpty(c, lib, i, j, c.Meet(i, j).height);
  }

  /** A walk ends well at its destination. */
  lemma WalkArrives(c: Chain, lib: Library, cancelled: nat -> bool, ts: seq<Transaction>, from: ChainIndex,
                    to: ChainIndex, cur: seq<Transaction>, hops: seq<ChainIndex>)
    requires c.WellFormed() && lib.Lawful(c) && Walk(c, lib, ts, from, to, cur, hops) && hops[|hops| - 1] == to
    ensures UpdateOutcome(c, lib, cancelled, ts, from, to, Success(cur))
    ensures HopsOutcome(c, from, to, Success(cur), hops)
  {
    if c.Known(from) && c.OnBest(to) {
      NothingLeft(c, lib, cur, to);
    }
  }

  /** Or early, once every transaction has been confirmed. */
  lemma WalkEmpties(c: Chain, lib: Library, cancelled: nat -> bool, ts: seq<Transaction>, from: ChainIndex,
                    to: ChainIndex, hops: seq<ChainIndex>)
    requires c.WellFormed() && lib.Lawful(c) && Walk(c, lib, ts, from, to, [], hops) && 1 < |hops|
    ensures UpdateOutcome(c, lib, cancelled, ts, from, to, Success([]))
    ensures HopsOutcome(c, from, to, Success([]), hops)
  {
    if c.Known(from) && c.OnBest(to) {
      DirectOfEmpty(c, lib, hops[|hops| - 1], to);
    }
  }

  lemma WalkCancelled(c: Chain, lib: Library, cancelled: nat -> bool, ts: seq<Transaction>, from: ChainIndex,
                      to: ChainIndex, cur: seq<Transaction>, hops: seq<ChainIndex>, k: nat)
    requires c.WellFormed() && lib.Lawful(c) && Walk(c, lib, ts, from, to, cur, hops) && cancelled(k)
    ensures UpdateOutcome(c, lib, cancelled, ts, from, to, Failure(Cancelled))
    ensures HopsOutcome(c, from, to, Failure(Cancelled), hops)
  {
  }

  lemma WalkBlocked(c: Chain, lib: Library, cancelled: nat -> bool, ts: seq<Transaction>, from: ChainIndex,
                    to: ChainIndex, cur: seq<Transaction>, hops: seq<ChainIndex>, e: UpdateError)
    requires c.WellFormed() && lib.Lawful(c) && Walk(c, lib, ts, from, to, cur, hops)
    requires var at := hops[|hops| - 1];
             c.Known(at) && c.OnBest(to) ==> e == BasisUnavailable && !OnWay(c, at, to) && BodyMissing(c, at, to)
    ensures UpdateOutcome(c, lib, cancelled, ts, from, to, Failure(e))
    ensures HopsOutcome(c, from, to, Failure(e), hops)
  {
    if c.Known(from) && c.OnBest(to) {
      TrailMissing(c, from, to, hops);
    }
  }

  lemma WalkRejected(c: Chain, lib: Library, cancelled: nat -> bool, ts: seq<Transaction>, from: ChainIndex,
                     to: ChainIndex, cur: seq<Transaction>, hops: seq<ChainIndex>)
    requires c.WellFormed() && lib.Lawful(c) && Walk(c, lib, ts, from, to, cur, hops)
    requires c.Known(from) && c.OnBest(to) ==> Direct(c, lib, ts, from, to) == None
    ensures UpdateOutcome(c, lib, cancelled, ts, from, to, Failure(Rejected))
    ensures HopsOutcome(c, from, to, Failure(Rejected), hops)
  {
  }

  /** The first `n` checks for shutdown answered no. */
  ghost predicate Uninterrupted(cancelled: nat -> bool, n: nat) {
    forall k :: 0 <= k < n ==> !cancelled(k)
  }

  lemma OneMoreCheck(cancelled: nat -> bool, n: nat)
    requires Uninterrupted(cancelled, n) && !cancelled(n)
    ensures Uninterrupted(cancelled, n + 1)
  {
  }

  /** Moves the proofs of `ts` from block `from` to block `to`. `cancelled(k)` is the answer of the
      k-th check for shutdown. `hops` lists the blocks the walk stood on. */
  method UpdateProofs(c: Chain, lib: Library, cancelled: nat -> bool, ts: seq<Transaction>, from: ChainIndex,
                      to: ChainIndex)
    returns (r: Result<seq<Transaction>, UpdateError>, ghost hops: seq<ChainIndex>)
    requires c.WellFormed() && lib.Lawful(c)
    ensures UpdateOutcome(c, lib, cancelled, ts, from, to, r)
    ensures HopsOutcome(c, from, to, r, hops)
    ensures forall k :: 0 <= k < |hops| - 1 ==> !cancelled(k)
  {
    WalkStarts(c, lib, ts, from, to);
    var cur, at, k := ts, from, 0;
    hops := [from];
    while at != to
      invariant Walk(c, lib, ts, from, to, cur, hops) && hops[|hops| - 1] == at
      invariant k == |hops| - 1 && Uninterrupted(cancelled, k)
      decreases if at == to then 0 else if OnWay(c, at, to) then 1 else 2,
                if OnWay(c, at, to) then to.height - at.height else at.height
    {
      if cancelled(k) {
        WalkCancelled(c, lib, cancelled, ts, from, to, cur, hops, k);
        return Failure(Cancelled), hops;
      }
      OneMoreCheck(cancelled, k);
      k := k + 1;
      var stop := NextStop(c, at, to);
      if stop.Failure? {
        WalkBlocked(c, lib, cancelled, ts, from, to, cur, hops, stop.error);
        return Failure(stop.error), hops;
      }
      var next := stop.value;
      WalkStep(c, lib, ts, from, to, cur, hops, next);
      var updated := UpdateV2TransactionSet(c, lib, cur, at, next);
      if updated.None? {
        WalkRejected(c, lib, cancelled, ts, from, to, cur, hops);
        return Failure(Rejected), hops;
      }
      cur := updated.value;
      hops := hops + [next];
      if cur == [] {
        WalkEmpties(c, lib, cancelled, ts, from, to, hops);
        return Success([]), hops;
      }
      at := next;
    }
    WalkArrives(c, lib, cancelled, ts, from, to, cur, hops);
    return Success(cur), hops;
  }
}
