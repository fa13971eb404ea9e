/** The proofs that the prover builds, and the proofs that bind nothing. */
module MultiproofFrontier {
  import opened Common
  import opened MerkleTree
  import opened Multiproof
  import opened MultiproofTheorems

  // -------- the frontier binds every needed node --------

  /** Parents of two known children are known. */
  ghost predicate Closed(known: set<Pos>, leafCount: u64) {
    forall k | 0 <= k < Depth(leafCount) :: RowKnown(known, k, NodeCount(leafCount, k))
  }

  ghost predicate RowKnown(known: set<Pos>, level: nat, n: u64) {
    forall q | 0 <= q < ParentCount(n) && BothChildren(known, level, q, n) :: Pos(level + 1, q) in known
  }

  lemma {:induction false} ClosureAddsAbove(known: set<Pos>, level: nat, n: u64)
    ensures forall pos <- Closure(known, level, n) :: pos in known || pos.level > level
    decreases n
  {
    if n > 1 {
      ClosureAddsAbove(KnownRow(known, level, n), level + 1, ParentCount(n));
    }
  }

  lemma {:induction false} ClosureIsClosed(known: set<Pos>, leafCount: u64, level: nat)
    requires 0 < leafCount < U64_MAX && level <= Depth(leafCount)
    ensures var all := Closure(known, level, NodeCount(leafCount, level));
            forall k | level <= k < Depth(leafCount) :: RowKnown(all, k, NodeCount(leafCount, k))
    decreases Depth(leafCount) - level
  {
    hide NodeCount, Depth;
    var n := NodeCount(leafCount, level);
    NodeCountStep(leafCount, level);
    DepthIsFirstSingle(leafCount, level);
    if level < Depth(leafCount) {
      var next, all := KnownRow(known, level, n), Closure(known, level, n);
      assert all == Closure(next, level + 1, NodeCount(leafCount, level + 1));
      hide Closure, KnownRow, RowKnown;
      ClosureIsClosed(next, leafCount, level + 1);
      RowBecomesKnown(known, level, n);
    }
  }

  lemma RowBecomesKnown(known: set<Pos>, level: nat, n: u64)
    requires n > 1
    ensures RowKnown(Closure(known, level, n), level, n)
  {
    var next, all := KnownRow(known, level, n), Closure(known, level, n);
    ClosureAddsAbove(known, level, n);
    ClosureGrows(next, level + 1, ParentCount(n));
    hide Closure;
    forall q | 0 <= q < ParentCount(n) && BothChildren(all, level, q, n)
      ensures Pos(level + 1, q) in all
    {
      assert BothChildren(known, level, q, n);
      assert Pos(level + 1, q) in next;
    }
  }

  ghost predicate HasSides<D(!new)>(known: set<Pos>, sides: seq<SideNode<D>>) {
    forall s <- sides :: s.pos in known
  }

  lemma {:induction false} RowSidesHas<D(!new)>(need: seq<nat>, all: seq<nat>, row: seq<D>, level: nat, i: nat)
    requires i in need && Sibling(i) < |row| && Sibling(i) !in all
    ensures SideNode(Pos(level, Sibling(i)), row[Sibling(i)]) in RowSides(need, all, row, level)
    decreases |need|
  {
    if i != need[0] {
      RowSidesHas(need[1..], all, row, level, i);
    }
  }

  ghost predicate AllKnown(known: set<Pos>, level: nat, need: seq<nat>, n: nat) {
    forall i <- need :: i < n && Pos(level, i) in known
  }

  /** When the frontier of some known nodes is known too, those nodes are bound, and the root is known. */
  lemma {:induction false} FrontierBinds<D(!new)>(need: seq<nat>, row: seq<D>, level: nat, h: (D, D) -> D,
                                                 leafCount: u64, known: set<Pos>)
    requires 0 < leafCount < U64_MAX && level <= Depth(leafCount) && |row| == NodeCount(leafCount, level)
    requires Closed(known, leafCount) && HasSides(known, Frontier(need, row, level, h))
    requires AllKnown(known, level, need, |row|)
    ensures forall i <- need :: Bound(known, leafCount, level, i)
    ensures need != [] ==> Pos(Depth(leafCount), 0) in known
    decreases |row|
  {
    hide NodeCount, Depth, Frontier, ParentRow;
    DepthIsFirstSingle(leafCount, level);
    if |row| <= 1 {
      if need != [] {
        assert need[0] in need;
      }
    } else {
      var next := SortUnique(HalveAll(need));
      FrontierStep(need, row, level, h, leafCount, known);
      FrontierBinds(next, ParentRow(row, h), level + 1, h, leafCount, known);
      if need != [] {
        assert need[0] in need;
      }
    }
  }

  lemma FrontierStep<D(!new)>(need: seq<nat>, row: seq<D>, level: nat, h: (D, D) -> D, leafCount: u64, known: set<Pos>)
    requires 0 < leafCount < U64_MAX && level < Depth(leafCount) && 1 < |row| == NodeCount(leafCount, level)
    requires Closed(known, leafCount) && HasSides(known, Frontier(need, row, level, h))
    requires AllKnown(known, level, need, |row|)
    ensures var next := SortUnique(HalveAll(need));
            && |ParentRow(row, h)| == NodeCount(leafCount, level + 1)
            && AllKnown(known, level + 1, next, |ParentRow(row, h)|)
            && HasSides(known, Frontier(next, ParentRow(row, h), level + 1, h))
            && (forall i <- need :: BothChildren(known, level, i / 2, |row|) && i / 2 in next)
  {
    hide NodeCount, Depth, RowSides, SortUnique, HalveAll, Layer;
    NodeCountStep(leafCount, level);
    var next := SortUnique(HalveAll(need));
    SidesSplit(known, RowSides(need, need, row, level), Frontier(next, ParentRow(row, h), level + 1, h));
    forall i <- need
      ensures BothChildren(known, level, i / 2, |row|) && i / 2 in next
    {
      if Sibling(i) < |row| && Sibling(i) !in need {
        RowSidesHas(need, need, row, level, i);
      }
      HalvedIn(need, i);
    }
    forall j <- next
      ensures j < |ParentRow(row, h)| && Pos(level + 1, j) in known
    {
      HalvedFrom(need, j);
      var i :| i in need && i / 2 == j;
      assert RowKnown(known, level, |row|) && BothChildren(known, level, j, |row|);
    }
  }

  lemma SidesSplit<D(!new)>(known: set<Pos>, a: seq<SideNode<D>>, b: seq<SideNode<D>>)
    requires HasSides(known, a + b)
    ensures HasSides(known, a) && HasSides(known, b)
  {
    assert forall s <- a :: s in a + b;
    assert forall s <- b :: s in a + b;
  }

  lemma HalvedIn(need: seq<nat>, i: nat)
    requires i in need
    ensures i / 2 in SortUnique(HalveAll(need))
  {
    var k :| 0 <= k < |need| && need[k] == i;
    assert HalveAll(need)[k] == i / 2;
  }

  lemma HalvedFrom(need: seq<nat>, j: nat)
    requires j in SortUnique(HalveAll(need))
    ensures exists i :: i in need && i / 2 == j
  {
    assert j in HalveAll(need);
    var k :| 0 <= k < |need| && HalveAll(need)[k] == j;
    assert need[k] in need && need[k] / 2 == j;
  }

  lemma LeafPositionsKnown<D(!new)>(p: MultiProof<D>)
    requires 0 < p.leafCount < U64_MAX
    ensures Closed(Known(p), p.leafCount) && Positions(p) <= Known(p)
  {
    ClosureIsClosed(Positions(p), p.leafCount, 0);
    ClosureGrows(Positions(p), 0, p.leafCount);
  }

  function Indices<D>(p: MultiProof<D>): (r: seq<nat>)
    ensures |r| == |p.leaves| && forall i | 0 <= i < |r| :: r[i] == p.leaves[i].index
  {
    seq(|p.leaves|, i requires 0 <= i < |p.leaves| => p.leaves[i].index)
  }

  /** A proof that supplies the sibling frontier of its leaf indices binds every leaf and reaches the root. */
  lemma FrontierProofBindsAll<D(!new)>(p: MultiProof<D>, leaves: seq<D>, h: (D, D) -> D)
    requires 0 < |leaves| < U64_MAX && p.leafCount == |leaves|
    requires forall l <- p.leaves :: l.index < |leaves|
    requires forall s <- Frontier(SortUnique(Indices(p)), leaves, 0, h) :: s.pos in set t <- p.sides :: t.pos
    ensures forall l <- p.leaves :: Bound(Known(p), |leaves|, 0, l.index)
    ensures p.leaves != [] ==> Pos(Depth(|leaves|), 0) in Known(p)
  {
    LeafPositionsKnown(p);
    var need := SortUnique(Indices(p));
    forall i <- need
      ensures i < |leaves| && Pos(0, i) in Known(p)
    {
      assert i in Indices(p);
      var k :| 0 <= k < |p.leaves| && Indices(p)[k] == i;
      assert p.leaves[k] in p.leaves;
    }
    FrontierBinds(need, leaves, 0, h, |leaves|, Known(p));
    forall l <- p.leaves
      ensures l.index in need
    {
      var k :| 0 <= k < |p.leaves| && p.leaves[k] == l;
      assert Indices(p)[k] == l.index;
    }
    if p.leaves != [] {
      assert p.leaves[0] in p.leaves;
    }
  }

  /** Soundness for frontier proofs: the accepted root pins every leaf, or there is a collision. */
  lemma FrontierProofIsSound<D(!new)>(p: MultiProof<D>, leaves: seq<D>, h: (D, D) -> D)
    requires 0 < |leaves| < U64_MAX && p.leafCount == |leaves|
    requires forall s <- Frontier(SortUnique(Indices(p)), leaves, 0, h) :: s.pos in set t <- p.sides :: t.pos
    requires Verify(p, h) == Some(Root(leaves, h))
    ensures forall l <- p.leaves :: l.index < |leaves|
    ensures (forall l <- p.leaves :: l.hash == leaves[l.index]) || Collision(AllNodes(p, h), leaves, h)
  {
    AddLeavesDoes(map[], p.leaves, p.leafCount);
    FrontierProofBindsAll(p, leaves, h);
    forall l <- p.leaves {
      BoundLeafIsGenuine(p, leaves, l, h);
    }
  }

  // -------- completeness --------

  lemma {:induction false} RowSidesGenuine<D(!new)>(need: seq<nat>, all: seq<nat>, row: seq<D>, level: nat)
    ensures forall s <- RowSides(need, all, row, level) ::
              s.pos.level == level && s.pos.index < |row| && s.hash == row[s.pos.index] && s.pos.index !in all
    decreases |need|
  {
    if need != [] {
      RowSidesGenuine(need[1..], all, row, level);
    }
  }

  lemma {:induction false} FrontierGenuine<D(!new)>(need: seq<nat>, leaves: seq<D>, row: seq<D>, level: nat,
                                                   h: (D, D) -> D)
    requires 0 < |leaves| < U64_MAX && level <= Depth(|leaves|) && row == Layer(leaves, level, h)
    ensures forall s <- Frontier(need, row, level, h) ::
              PosInTree(s.pos, |leaves|) && s.pos.level >= level && s.hash == TreeValues(leaves, h)(s.pos)
    decreases |row|
  {
    LayerSize(leaves, level, h);
    DepthIsFirstSingle(|leaves|, level);
    if |row| > 1 {
      RowSidesGenuine(need, need, row, level);
      LayerStep(leaves, level, h);
      FrontierGenuine(SortUnique(HalveAll(need)), leaves, ParentRow(row, h), level + 1, h);
    }
  }

  lemma {:induction false} RowSidesIncreasing<D(!new)>(need: seq<nat>, all: seq<nat>, row: seq<D>, level: nat)
    requires Increasing(need) && forall i <- need :: i in all
    ensures SidesIncreasing(RowSides(need, all, row, level))
    ensures forall s <- RowSides(need, all, row, level) :: need != [] && s.pos.index / 2 >= need[0] / 2
    ensures forall s <- RowSides(need, all, row, level) :: s.pos.level == level && s.pos.index !in all
    decreases |need|
  {
    if need != [] {
      RowSidesIncreasing(need[1..], all, row, level);
      assert forall i <- need[1..] :: i in need;
      var first, rest := Sibling(need[0]), RowSides(need[1..], all, row, level);
      if |need| > 1 && need[1] / 2 == need[0] / 2 {
        assert need[1] == first && need[1] in all;
      }
      forall s <- rest
        ensures first in all || first < s.pos.index
      {
      }
    }
  }

  lemma {:induction false} FrontierIncreasing<D(!new)>(need: seq<nat>, row: seq<D>, level: nat, h: (D, D) -> D)
    requires Increasing(need)
    ensures SidesIncreasing(Frontier(need, row, level, h))
    ensures forall s <- Frontier(need, row, level, h) :: s.pos.level >= level
    ensures forall s <- Frontier(need, row, level, h) :: s.pos.level == level ==> s.pos.index !in need
    decreases |row|
  {
    if |row| > 1 {
      RowSidesIncreasing(need, need, row, level);
      FrontierIncreasing(SortUnique(HalveAll(need)), ParentRow(row, h), level + 1, h);
      var a, b := RowSides(need, need, row, level),
        Frontier(SortUnique(HalveAll(need)), ParentRow(row, h), level + 1, h);
      assert forall i | 0 <= i < |a| :: a[i] in a;
      assert forall i | 0 <= i < |b| :: b[i] in b;
    }
  }

  lemma {:induction false} SortedSidesStay<D>(s: seq<SideNode<D>>)
    requires SidesIncreasing(s)
    ensures SortSides(s) == s
    decreases |s|
  {
    if s != [] {
      SortedSidesStay(s[1..]);
    }
  }

  /**
   Completeness: for any non-empty leaves and any non-empty in-range targets, the prover builds a proof that the
   verifier accepts with the tree's root. Its leaves are the targets in strictly increasing order, its side nodes are
   strictly increasing too, and no side node repeats a leaf.
   */
  lemma BuiltProofVerifies<D(!new)>(leaves: seq<D>, indices: seq<nat>, h: (D, D) -> D)
    requires 0 < |leaves| < U64_MAX && indices != []
    requires forall i <- indices :: i < |leaves|
    ensures Build(leaves, indices, h).Some?
    ensures var p := Build(leaves, indices, h).value;
            && Verify(p, h) == Some(Root(leaves, h))
            && Increasing(Indices(p)) && SidesIncreasing(p.sides)
            && (forall i :: i in Indices(p) <==> i in indices)
            && (forall s <- p.sides :: s.pos.level == 0 ==> s.pos.index !in indices)
  {
    hide Closure, Bound, Verify, Layer, Root, Depth, NodeCount, Frontier, SortSides, SortUnique;
    var targets := SortUnique(indices);
    assert indices[0] in targets;
    assert forall i | 0 <= i < |targets| :: targets[i] in targets;
    var frontier := Frontier(targets, leaves, 0, h);
    FrontierIncreasing(targets, leaves, 0, h);
    SortedSidesStay(frontier);
    var p: MultiProof<D> := Build(leaves, indices, h).value;
    assert p == MultiProof(|leaves|, LeafItems(targets, leaves), frontier);
    assert Indices(p) == targets;
    BuiltProofIsHonest(p, leaves, targets, h);
    SortedIsFixed(targets);
    FrontierProofBindsAll(p, leaves, h);
    HonestProofVerifies(p, leaves, h);
  }

  lemma BuiltProofIsHonest<D(!new)>(p: MultiProof<D>, leaves: seq<D>, targets: seq<nat>, h: (D, D) -> D)
    requires 0 < |leaves| < U64_MAX && targets != []
    requires forall i | 0 <= i < |targets| :: targets[i] < |leaves|
    requires p == MultiProof(|leaves|, LeafItems(targets, leaves), Frontier(targets, leaves, 0, h))
    ensures Carries(p, TreeValues(leaves, h))
    ensures forall l <- p.leaves :: l.index < |leaves|
  {
    hide Frontier, Depth, NodeCount;
    FrontierGenuine(targets, leaves, leaves, 0, h);
    assert Layer(leaves, 0, h) == leaves;
    forall l <- p.leaves
      ensures l.index < |leaves| && l.hash == TreeValue(leaves, h, Pos(0, l.index))
    {
      var k :| 0 <= k < |targets| && p.leaves[k] == l;
    }
  }

  lemma {:induction false} SortedIsFixed(s: seq<nat>)
    requires Increasing(s)
    ensures SortUnique(s) == s
  {
    if s != [] {
      SortedIsFixed(s[1..]);
    }
  }

  // -------- leaves that a proof does not bind --------

  /** The lowest level on which the chain from leaf `i` to the root breaks. */
  function BreakLevel(known: set<Pos>, leafCount: u64, level: nat, i: nat): (m: nat)
    requires !Bound(known, leafCount, level, Ancestor(i, level))
    ensures level <= m < Depth(leafCount)
    ensures !BothChildren(known, m, Ancestor(i, m) / 2, NodeCount(leafCount, m))
    decreases Depth(leafCount) - level
  {
    if BothChildren(known, level, Ancestor(i, level) / 2, NodeCount(leafCount, level)) then
      AncestorStep(i, level);
      BreakLevel(known, leafCount, level + 1, i)
    else level
  }

  /** The tree over `leaves`, except that up to level `m` the branch above leaf `i` tells of another leaf `d`. */
  function ForgedValue<D>(leaves: seq<D>, i: nat, d: D, m: nat, h: (D, D) -> D, pos: Pos): D
    requires i < |leaves|
  {
    if pos.level <= m && pos.index == Ancestor(i, pos.level) then TreeValue(leaves[i := d], h, pos)
    else TreeValue(leaves, h, pos)
  }

  function ForgedValues<D>(leaves: seq<D>, i: nat, d: D, m: nat, h: (D, D) -> D): Pos -> D
    requires i < |leaves|
  {
    (pos: Pos) => ForgedValue(leaves, i, d, m, h, pos)
  }

  lemma ForgeryIsConsistent<D(!new)>(leaves: seq<D>, known: set<Pos>, i: nat, d: D, h: (D, D) -> D)
    requires |leaves| < U64_MAX && i < |leaves| && !Bound(known, |leaves|, 0, i)
    ensures Consistent(ForgedValues(leaves, i, d, BreakLevel(known, |leaves|, 0, i), h), known, |leaves|, h)
  {
    var m := BreakLevel(known, |leaves|, 0, i);
    var values := ForgedValues(leaves, i, d, m, h);
    forall k | 0 <= k < Depth(|leaves|)
      ensures RowConsistent(values, known, k, NodeCount(|leaves|, k), h)
    {
      NodeCountStep(|leaves|, k);
      var n := NodeCount(|leaves|, k);
      forall q | 0 <= q < ParentCount(n) && BothChildren(known, k, q, n)
        ensures values(Pos(k + 1, q)) == h(values(Pos(k, LeftChild(q))), values(Pos(k, RightChild(q, n))))
      {
        ForgedStep(leaves, known, i, d, k, q, h);
      }
    }
  }

  lemma ForgedStep<D(!new)>(leaves: seq<D>, known: set<Pos>, i: nat, d: D, k: nat, q: nat, h: (D, D) -> D)
    requires |leaves| < U64_MAX && i < |leaves| && !Bound(known, |leaves|, 0, i)
    requires k < Depth(|leaves|) && q < NodeCount(|leaves|, k + 1)
    requires BothChildren(known, k, q, NodeCount(|leaves|, k))
    ensures var values := ForgedValues(leaves, i, d, BreakLevel(known, |leaves|, 0, i), h);
            values(Pos(k + 1, q)) ==
            h(values(Pos(k, LeftChild(q))), values(Pos(k, RightChild(q, NodeCount(|leaves|, k)))))
  {
    hide NodeCount, Layer, Depth;
    var m := BreakLevel(known, |leaves|, 0, i);
    AncestorStep(i, k);
    TreeStep(leaves, k, q, h);
    TreeStep(leaves[i := d], k, q, h);
    NodeCountStep(|leaves|, k);
    ChildrenUnchanged(leaves, i, d, k, LeftChild(q), h);
    ChildrenUnchanged(leaves, i, d, k, RightChild(q, NodeCount(|leaves|, k)), h);
    if q == Ancestor(i, k) / 2 {
      assert k != m;
    }
  }

  lemma ChildrenUnchanged<D>(leaves: seq<D>, i: nat, d: D, k: nat, j: nat, h: (D, D) -> D)
    requires i < |leaves| < U64_MAX && j < NodeCount(|leaves|, k)
    ensures j != Ancestor(i, k) ==> TreeValues(leaves[i := d], h)(Pos(k, j)) == TreeValues(leaves, h)(Pos(k, j))
  {
    LayerAfterUpdate(leaves, i, d, k, h);
    LayerSize(leaves, k, h);
  }

  /** The proof with the same positions as `p` that carries `values`. */
  function Relabel<D>(p: MultiProof<D>, values: Pos -> D): (r: MultiProof<D>)
    ensures |r.leaves| == |p.leaves| && |r.sides| == |p.sides| && r.leafCount == p.leafCount
    ensures forall k | 0 <= k < |p.leaves| ::
              r.leaves[k].index == p.leaves[k].index && r.leaves[k].hash == values(Pos(0, p.leaves[k].index))
    ensures forall k | 0 <= k < |p.sides| ::
              r.sides[k].pos == p.sides[k].pos && r.sides[k].hash == values(p.sides[k].pos)
  {
    MultiProof(p.leafCount,
               seq(|p.leaves|, k requires 0 <= k < |p.leaves| =>
                 LeafItem(p.leaves[k].index, values(Pos(0, p.leaves[k].index)))),
               seq(|p.sides|, k requires 0 <= k < |p.sides| => SideNode(p.sides[k].pos, values(p.sides[k].pos))))
  }

  lemma RelabelKeepsPositions<D(!new)>(p: MultiProof<D>, values: Pos -> D)
    ensures Positions(Relabel(p, values)) == Positions(p)
  {
    var r := Relabel(p, values);
    forall l <- p.leaves
      ensures Pos(0, l.index) in Positions(r)
    {
      var k :| 0 <= k < |p.leaves| && p.leaves[k] == l;
      assert r.leaves[k] in r.leaves;
    }
    forall s <- p.sides
      ensures s.pos in Positions(r)
    {
      var k :| 0 <= k < |p.sides| && p.sides[k] == s;
      assert r.sides[k] in r.sides;
    }
    forall l <- r.leaves
      ensures Pos(0, l.index) in Positions(p)
    {
      var k :| 0 <= k < |p.leaves| && r.leaves[k] == l;
      assert p.leaves[k] in p.leaves;
    }
    forall s <- r.sides
      ensures s.pos in Positions(p)
    {
      var k :| 0 <= k < |p.sides| && r.sides[k] == s;
      assert p.sides[k] in p.sides;
    }
  }

  /**
   The converse of soundness. When some leaf of a set of proof positions is not bound although the root is known, the
   positions can be filled in for any tree and any other digest `d` so that the verifier accepts the tree's root and the
   proof claims `d` for that leaf. Binding is therefore exactly what acceptance needs to mean anything.
   */
  lemma UnboundLeafCanClaimAnything<D(!new)>(p: MultiProof<D>, leaves: seq<D>, k: nat, d: D, h: (D, D) -> D)
    returns (forged: MultiProof<D>)
    requires 0 < |leaves| < U64_MAX && p.leafCount == |leaves|
    requires k < |p.leaves| && forall l <- p.leaves :: l.index < |leaves|
    requires forall s <- p.sides :: PosInTree(s.pos, |leaves|)
    requires Pos(Depth(|leaves|), 0) in Known(p) && !Bound(Known(p), |leaves|, 0, p.leaves[k].index)
    ensures Positions(forged) == Positions(p) && |forged.leaves| == |p.leaves|
    ensures forged.leaves[k] == LeafItem(p.leaves[k].index, d)
    ensures Verify(forged, h) == Some(Root(leaves, h))
  {
    hide NodeCount, Closure, Layer, Root, Bound, Verify, Consistent;
    var i := p.leaves[k].index;
    var m := BreakLevel(Known(p), |leaves|, 0, i);
    var values := ForgedValues(leaves, i, d, m, h);
    forged := Relabel(p, values);
    RelabelKeepsPositions(p, values);
    RelabelCarries(p, values);
    ForgeryIsConsistent(leaves, Known(p), i, d, h);
    ConsistentProofVerifies(forged, values, h);
    ForgedEnds(leaves, i, d, m, h);
  }

  /** The forgery claims `d` at the leaf and keeps the root. */
  lemma ForgedEnds<D(!new)>(leaves: seq<D>, i: nat, d: D, m: nat, h: (D, D) -> D)
    requires i < |leaves| < U64_MAX && m < Depth(|leaves|)
    ensures ForgedValues(leaves, i, d, m, h)(Pos(0, i)) == d
    ensures ForgedValues(leaves, i, d, m, h)(Pos(Depth(|leaves|), 0)) == Root(leaves, h)
  {
    RootIsTopLayer(leaves, h);
    assert Layer(leaves[i := d], 0, h) == leaves[i := d] && Ancestor(i, 0) == i;
    assert ForgedValue(leaves, i, d, m, h, Pos(0, i)) == d;
    assert ForgedValue(leaves, i, d, m, h, Pos(Depth(|leaves|), 0)) == Root(leaves, h);
  }

  lemma RelabelCarries<D(!new)>(p: MultiProof<D>, values: Pos -> D)
    requires p.leaves != []
    requires forall l <- p.leaves :: l.index < p.leafCount
    requires forall s <- p.sides :: PosInTree(s.pos, p.leafCount)
    ensures Carries(Relabel(p, values), values)
  {
    assert forall j | 0 <= j < |p.leaves| :: p.leaves[j] in p.leaves;
    assert forall j | 0 <= j < |p.sides| :: p.sides[j] in p.sides;
  }

  /** The smallest such proof: one leaf of two, and a side node at the root itself. */
  lemma RootSideNodeBindsNothing<D(!new)>(root: D, d: D, h: (D, D) -> D)
    ensures Verify(MultiProof(2, [LeafItem(0, d)], [SideNode(Pos(1, 0), root)]), h) == Some(root)
  {
    var p := MultiProof(2, [LeafItem(0, d)], [SideNode(Pos(1, 0), root)]);
    var leafNodes: Nodes<D> := map[Pos(0, 0) := d];
    assert AddLeaves(map[], p.leaves, 2) == Some(leafNodes) by {
      assert p.leaves[1..] == [];
    }
    assert Depth(2) == 1 && NodeCount(2, 1) == 1 && ParentCount(2) == 1;
    var nodes := leafNodes[Pos(1, 0) := root];
    assert AddSides(leafNodes, p.sides, 2) == Some(nodes) by {
      assert p.sides[1..] == [];
    }
    assert !BothChildren(nodes.Keys, 0, 0, 2);
    assert HashRow(nodes, 0, 2, 0, h) == HashRow(nodes, 0, 2, 1, h) == Some(nodes);
    assert HashUp(nodes, 0, 2, h) == HashUp(nodes, 1, 1, h) == Some((nodes, 1));
  }

  /**
   A proof that claims 2^64 - 1 leaves: the rounding addition wraps, nothing is hashed, and the result is whatever side
   node stands at the root.
   */
  lemma FullCountTakesAnyRoot<D>(p: MultiProof<D>, h: (D, D) -> D)
    requires p.leafCount == U64_MAX
    ensures PosInTree(Pos(1, 0), p.leafCount)
    ensures var supplied := Supplied(p);
      Verify(p, h) == if supplied.Some? && Pos(1, 0) in supplied.value then Some(supplied.value[Pos(1, 0)]) else None
  {
    hide AddLeaves, AddSides;
    assert ParentCount(U64_MAX) == 0;
    assert Depth(U64_MAX) == 1 + Depth(0) && NodeCount(U64_MAX, 1) == 1;
    if Supplied(p).Some? {
      var nodes := Supplied(p).value;
      assert HashRow(nodes, 0, U64_MAX, 0, h) == Some(nodes);
      assert HashUp(nodes, 1, 0, h) == Some((nodes, 1));
      assert HashUp(nodes, 0, U64_MAX, h) == Some((nodes, 1));
    }
  }
}
