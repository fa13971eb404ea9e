/** What a proof shows when it claims another leaf count than the tree has: the root does not bind the count. */
module MultiproofCounts {
  import opened Common
  import opened MerkleTree
  import opened Multiproof
  import opened MultiproofTheorems

  /** Repeating the last of an odd number of leaves changes neither the root nor the depth. */
  lemma RepeatedLastLeafHasSameRoot<D>(leaves: seq<D>, h: (D, D) -> D)
    requires 1 < |leaves| < U64_MAX - 1 && |leaves| % 2 == 1
    ensures Root(leaves + [leaves[|leaves| - 1]], h) == Root(leaves, h)
    ensures Depth(|leaves| + 1) == Depth(|leaves|)
  {
    hide ParentRow;
    RepeatedLastLeafHasSameParents(leaves, h);
  }

  lemma RepeatedLastLeafHasSameParents<D>(leaves: seq<D>, h: (D, D) -> D)
    requires |leaves| % 2 == 1
    ensures ParentRow(leaves + [leaves[|leaves| - 1]], h) == ParentRow(leaves, h)
  {
    var more := leaves + [leaves[|leaves| - 1]];
    var a, b := ParentRow(leaves, h), ParentRow(more, h);
    hide ParentRow;
    forall q | 0 <= q < |a|
      ensures b[q] == a[q]
    {
      assert more[LeftChild(q)] == leaves[LeftChild(q)];
      assert more[RightChild(q, |more|)] == leaves[RightChild(q, |leaves|)];
    }
  }

  /** A level of a tree of `claimed` leaves, seen from the root, is this level of a tree of `count` leaves. */
  function TrueLevel(claimed: u64, count: u64, level: nat): nat
    requires Depth(claimed) <= level + Depth(count)
  {
    level + Depth(count) - Depth(claimed)
  }

  /** Where the turns from the root down to node `i` of the claimed tree lead in a tree of `count` leaves. */
  function Landing(claimed: u64, count: u64, level: nat, i: nat): nat
    requires Depth(claimed) <= level + Depth(count)
    decreases Depth(claimed) - level
  {
    if level >= Depth(claimed) then 0
    else
      var above := Landing(claimed, count, level + 1, i / 2);
      if i % 2 == 0 then LeftChild(above)
      else RightChild(above, NodeCount(count, TrueLevel(claimed, count, level)))
  }

  function LandsAt(claimed: u64, count: u64, level: nat, i: nat): Pos
    requires Depth(claimed) <= level + Depth(count)
  {
    Pos(TrueLevel(claimed, count, level), Landing(claimed, count, level, i))
  }

  lemma {:induction false} LandingIsInTree(claimed: u64, count: u64, level: nat, i: nat)
    requires 0 < count < U64_MAX && Depth(claimed) <= level + Depth(count) && level <= Depth(claimed)
    ensures Landing(claimed, count, level, i) < NodeCount(count, TrueLevel(claimed, count, level))
    decreases Depth(claimed) - level
  {
    var k := TrueLevel(claimed, count, level);
    DepthIsFirstSingle(count, k);
    if level < Depth(claimed) {
      LandingIsInTree(claimed, count, level + 1, i / 2);
      NodeCountStep(count, k);
    }
  }

  /** With equal depths the turns lead to the same index, where the tree has it. */
  lemma {:induction false} LandingIsHere(claimed: u64, count: u64, level: nat, i: nat)
    requires 0 < count < U64_MAX && Depth(claimed) == Depth(count) && level <= Depth(claimed)
    requires i < NodeCount(count, level)
    ensures Landing(claimed, count, level, i) == i
    decreases Depth(claimed) - level
  {
    hide NodeCount, Depth;
    DepthIsFirstSingle(count, level);
    if level < Depth(claimed) {
      NodeCountStep(count, level);
      LandingIsHere(claimed, count, level + 1, i / 2);
    }
  }

  /** The pair hashed at `q` on a level of the claimed tree and the tree's own pair at `r` differ and hash alike. */
  ghost predicate Collide<D(!new)>(all: Nodes<D>, claimed: u64, leaves: seq<D>, level: nat, q: nat, r: nat,
                                   h: (D, D) -> D)
    requires 0 < |leaves| < U64_MAX && Depth(claimed) <= level + Depth(|leaves|)
    requires BothChildren(all.Keys, level, q, NodeCount(claimed, level))
  {
    var k := TrueLevel(claimed, |leaves|, level);
    var left, right := all[Pos(level, LeftChild(q))], all[Pos(level, RightChild(q, NodeCount(claimed, level)))];
    var tree := TreeValues(leaves, h);
    var trueLeft, trueRight := tree(Pos(k, LeftChild(r))), tree(Pos(k, RightChild(r, NodeCount(|leaves|, k))));
    (left, right) != (trueLeft, trueRight) && h(left, right) == h(trueLeft, trueRight)
  }

  /** The verifier hashed a pair that differs from one of the tree's pairs and has the same hash. */
  ghost predicate SomeCollide<D(!new)>(all: Nodes<D>, claimed: u64, leaves: seq<D>, h: (D, D) -> D)
    requires 0 < |leaves| < U64_MAX
  {
    exists level, q, r |
      0 <= level < Depth(claimed) <= level + Depth(|leaves|) && 0 <= q && 0 <= r &&
      BothChildren(all.Keys, level, q, NodeCount(claimed, level)) ::
      Collide(all, claimed, leaves, level, q, r, h)
  }

  lemma EqualParentsHaveEqualChildren<D(!new)>(all: Nodes<D>, claimed: u64, leaves: seq<D>, level: nat, q: nat,
                                              r: nat, h: (D, D) -> D)
    requires 0 < |leaves| < U64_MAX && level < Depth(claimed) <= level + Depth(|leaves|)
    requires r < NodeCount(|leaves|, TrueLevel(claimed, |leaves|, level) + 1)
    requires BothChildren(all.Keys, level, q, NodeCount(claimed, level))
    requires h(all[Pos(level, LeftChild(q))], all[Pos(level, RightChild(q, NodeCount(claimed, level)))]) ==
             TreeValues(leaves, h)(Pos(TrueLevel(claimed, |leaves|, level) + 1, r))
    requires !SomeCollide(all, claimed, leaves, h)
    ensures var k := TrueLevel(claimed, |leaves|, level);
            && all[Pos(level, LeftChild(q))] == TreeValues(leaves, h)(Pos(k, LeftChild(r)))
            && all[Pos(level, RightChild(q, NodeCount(claimed, level)))] ==
               TreeValues(leaves, h)(Pos(k, RightChild(r, NodeCount(|leaves|, k))))
  {
    hide NodeCount, Depth, TreeValues;
    TreeStep(leaves, TrueLevel(claimed, |leaves|, level), r, h);
    assert !Collide(all, claimed, leaves, level, q, r, h);
  }

  lemma TopIsRoot<D>(leaves: seq<D>, h: (D, D) -> D)
    requires 0 < |leaves| < U64_MAX
    ensures TreeValues(leaves, h)(Pos(Depth(|leaves|), 0)) == Root(leaves, h)
  {
    RootIsTopLayer(leaves, h);
  }

  /** One turn further down: a node whose parent is the tree's node where the parent lands is the tree's node too. */
  lemma TurnDown<D(!new)>(all: Nodes<D>, claimed: u64, leaves: seq<D>, level: nat, i: nat, h: (D, D) -> D)
    requires 0 < |leaves| < U64_MAX && 0 < claimed < U64_MAX
    requires level < Depth(claimed) <= level + Depth(|leaves|) && i < NodeCount(claimed, level)
    requires RowHashed(all, level, NodeCount(claimed, level), h)
    requires BothChildren(all.Keys, level, i / 2, NodeCount(claimed, level))
    requires Pos(level + 1, i / 2) in all
    requires all[Pos(level + 1, i / 2)] == TreeValues(leaves, h)(LandsAt(claimed, |leaves|, level + 1, i / 2))
    requires !SomeCollide(all, claimed, leaves, h)
    ensures Pos(level, i) in all
    ensures all[Pos(level, i)] == TreeValues(leaves, h)(LandsAt(claimed, |leaves|, level, i))
  {
    hide NodeCount, TreeValues, Depth, SomeCollide;
    NodeCountStep(claimed, level);
    LandingIsInTree(claimed, |leaves|, level + 1, i / 2);
    EqualParentsHaveEqualChildren(all, claimed, leaves, level, i / 2,
                                  Landing(claimed, |leaves|, level + 1, i / 2), h);
  }

  lemma {:induction false} BoundNodeIsWhereItLands<D(!new)>(nodes: Nodes<D>, all: Nodes<D>, claimed: u64,
                                                           leaves: seq<D>, level: nat, i: nat, h: (D, D) -> D)
    requires 0 < |leaves| < U64_MAX && 0 < claimed < U64_MAX
    requires level <= Depth(claimed) <= level + Depth(|leaves|) && i < NodeCount(claimed, level)
    requires HashedUp(nodes, all, claimed, 0, h)
    requires Pos(Depth(claimed), 0) in all && all[Pos(Depth(claimed), 0)] == Root(leaves, h)
    requires Bound(all.Keys, claimed, level, i)
    ensures Pos(level, i) in all
    ensures all[Pos(level, i)] == TreeValues(leaves, h)(LandsAt(claimed, |leaves|, level, i)) ||
            SomeCollide(all, claimed, leaves, h)
    decreases Depth(claimed) - level
  {
    hide NodeCount, TreeValues, Root, Depth, SomeCollide, RowHashed;
    DepthIsFirstSingle(claimed, level);
    if level == Depth(claimed) {
      TopIsRoot(leaves, h);
    } else {
      NodeCountStep(claimed, level);
      BoundNodeIsWhereItLands(nodes, all, claimed, leaves, level + 1, i / 2, h);
      if !SomeCollide(all, claimed, leaves, h) {
        TurnDown(all, claimed, leaves, level, i, h);
      }
    }
  }

  lemma {:induction false} BoundAbove(known: set<Pos>, leafCount: u64, i: nat, level: nat)
    requires Bound(known, leafCount, 0, i) && level <= Depth(leafCount)
    ensures Bound(known, leafCount, level, Ancestor(i, level))
  {
    if level > 0 {
      BoundAbove(known, leafCount, i, level - 1);
      AncestorStep(i, level - 1);
    }
  }

  /** The level of the claimed tree on which the nodes of the true tree's lowest common levels lie. */
  function LowestShared(claimed: u64, count: u64): (level: nat)
    ensures Depth(claimed) <= level + Depth(count) && level <= Depth(claimed)
    ensures level == 0 || TrueLevel(claimed, count, level) == 0
  {
    if Depth(claimed) <= Depth(count) then 0 else Depth(claimed) - Depth(count)
  }

  /**
   Soundness for any claimed leaf count. Seen from the root, a bound leaf of an accepted proof (or, when the claim is
   deeper than the tree, the leaf's ancestor as many levels up as the claim is too deep) is the node of the true tree
   to which the same turns lead, unless there is a collision. So a claim that is too shallow shows inner nodes as
   leaves, and one that is too deep shows preimages of leaves.
   */
  lemma AnyCountIsSound<D(!new)>(p: MultiProof<D>, leaves: seq<D>, l: LeafItem<D>, h: (D, D) -> D)
    requires 0 < |leaves| < U64_MAX && 0 < p.leafCount < U64_MAX
    requires Verify(p, h) == Some(Root(leaves, h))
    requires l in p.leaves && Bound(Known(p), p.leafCount, 0, l.index)
    ensures var level := LowestShared(p.leafCount, |leaves|);
            var i := Ancestor(l.index, level);
            var here := LandsAt(p.leafCount, |leaves|, level, i);
            && PosInTree(here, |leaves|)
            && Pos(level, i) in AllNodes(p, h)
            && (level == 0 ==> AllNodes(p, h)[Pos(level, i)] == l.hash)
            && (AllNodes(p, h)[Pos(level, i)] == TreeValues(leaves, h)(here) ||
                SomeCollide(AllNodes(p, h), p.leafCount, leaves, h))
  {
    var leafNodes: Nodes<D> := AddLeaves(map[], p.leaves, p.leafCount).value;
    var nodes: Nodes<D> := Supplied(p).value;
    AddLeavesDoes(map[], p.leaves, p.leafCount);
    AddSidesDoes(leafNodes, p.sides, p.leafCount);
    assert nodes.Keys == Positions(p);
    HashUpDoes(nodes, p.leafCount, 0, p.leafCount, h);
    hide Depth, NodeCount, Landing, Bound, Closure, SomeCollide, Root, TreeValues;
    var level := LowestShared(p.leafCount, |leaves|);
    var i := Ancestor(l.index, level);
    AncestorInRange(l.index, p.leafCount, level);
    BoundAbove(Known(p), p.leafCount, l.index, level);
    BoundNodeIsWhereItLands(nodes, AllNodes(p, h), p.leafCount, leaves, level, i, h);
    LandingIsInTree(p.leafCount, |leaves|, level, i);
  }

  /** A claim of the right depth shows true leaves: at their own index below the true count, at a smaller one above. */
  lemma SameDepthShowsLeaves<D(!new)>(p: MultiProof<D>, leaves: seq<D>, l: LeafItem<D>, h: (D, D) -> D)
    requires 0 < |leaves| < U64_MAX && 0 < p.leafCount < U64_MAX && Depth(p.leafCount) == Depth(|leaves|)
    requires Verify(p, h) == Some(Root(leaves, h))
    requires l in p.leaves && Bound(Known(p), p.leafCount, 0, l.index)
    ensures var at := Landing(p.leafCount, |leaves|, 0, l.index);
            && at < |leaves|
            && (l.index < |leaves| ==> at == l.index)
            && (l.hash == leaves[at] || SomeCollide(AllNodes(p, h), p.leafCount, leaves, h))
  {
    AnyCountIsSound(p, leaves, l, h);
    LandingIsInTree(p.leafCount, |leaves|, 0, l.index);
    if l.index < |leaves| {
      LandingIsHere(p.leafCount, |leaves|, 0, l.index);
    }
    assert Layer(leaves, 0, h) == leaves;
  }
}
