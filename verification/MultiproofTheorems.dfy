/** What a multiproof proves: completeness, soundness, and exactly which leaves a proof binds. */
module MultiproofTheorems {
  import opened Common
  import opened MerkleTree
  import opened Multiproof

  // -------- positions: what the verifier will know, from positions alone --------

  function KnownRow(known: set<Pos>, level: nat, n: u64): set<Pos> {
    known + set q | 0 <= q < ParentCount(n) && BothChildren(known, level, q, n) :: Pos(level + 1, q)
  }

  function Closure(known: set<Pos>, level: nat, n: u64): set<Pos>
    decreases n
  {
    if n <= 1 then known else Closure(KnownRow(known, level, n), level + 1, ParentCount(n))
  }

  function Positions<D(==)>(p: MultiProof<D>): set<Pos> {
    (set l <- p.leaves :: Pos(0, l.index)) + (set s <- p.sides :: s.pos)
  }

  /** The positions whose hashes the verifier ends up with. */
  function Known<D(==)>(p: MultiProof<D>): set<Pos> {
    Closure(Positions(p), 0, p.leafCount)
  }

  /** Every hash on the way from the node up to the root can be recomputed. */
  predicate Bound(known: set<Pos>, leafCount: u64, level: nat, i: nat)
    decreases Depth(leafCount) - level
  {
    level >= Depth(leafCount) ||
    (BothChildren(known, level, i / 2, NodeCount(leafCount, level)) && Bound(known, leafCount, level + 1, i / 2))
  }

  // -------- what hashing upward computes --------

  /** `values` gives every parent with two known children the hash of those children. */
  ghost predicate Consistent<D>(values: Pos -> D, known: set<Pos>, leafCount: u64, h: (D, D) -> D) {
    forall k | 0 <= k < Depth(leafCount) :: RowConsistent(values, known, k, NodeCount(leafCount, k), h)
  }

  ghost predicate RowConsistent<D>(values: Pos -> D, known: set<Pos>, level: nat, n: u64, h: (D, D) -> D) {
    forall q | 0 <= q < ParentCount(n) && BothChildren(known, level, q, n) ::
      values(Pos(level + 1, q)) == h(values(Pos(level, LeftChild(q))), values(Pos(level, RightChild(q, n))))
  }

  ghost predicate Assigns<D(!new)>(nodes: Nodes<D>, values: Pos -> D) {
    forall pos <- nodes :: nodes[pos] == values(pos)
  }

  /** One row: old nodes stay, and exactly the parents with two known children become known. */
  ghost predicate RowDone<D(!new)>(nodes: Nodes<D>, out: Nodes<D>, level: nat, n: u64, q: nat, h: (D, D) -> D) {
    && (forall pos <- nodes :: pos in out && out[pos] == nodes[pos])
    && (forall pos <- out ::
          pos in nodes ||
          (pos.level == level + 1 && q <= pos.index < ParentCount(n) && BothChildren(nodes.Keys, level, pos.index, n)))
    && (forall r | q <= r < ParentCount(n) && BothChildren(nodes.Keys, level, r, n) ::
          Pos(level + 1, r) in out &&
          out[Pos(level + 1, r)] == h(nodes[Pos(level, LeftChild(r))], nodes[Pos(level, RightChild(r, n))]))
  }

  lemma {:induction false} HashRowDoes<D(!new)>(nodes: Nodes<D>, level: nat, n: u64, q: nat, h: (D, D) -> D)
    requires HashRow(nodes, level, n, q, h).Some?
    ensures RowDone(nodes, HashRow(nodes, level, n, q, h).value, level, n, q, h)
    decreases ParentCount(n) - q
  {
    if q < ParentCount(n) {
      if !BothChildren(nodes.Keys, level, q, n) {
        HashRowDoes(nodes, level, n, q + 1, h);
      } else {
        var parent := h(nodes[Pos(level, LeftChild(q))], nodes[Pos(level, RightChild(q, n))]);
        var next := AddNode(nodes, Pos(level + 1, q), parent).value;
        HashRowDoes(next, level, n, q + 1, h);
        assert forall r :: BothChildren(next.Keys, level, r, n) <==> BothChildren(nodes.Keys, level, r, n);
      }
    }
  }

  /** A row cannot meet a mismatch when the known hashes follow a consistent assignment. */
  lemma {:induction false} HashRowSucceeds<D(!new)>(nodes: Nodes<D>, level: nat, n: u64, q: nat, values: Pos -> D,
                                                   h: (D, D) -> D)
    requires Assigns(nodes, values)
    requires RowConsistent(values, nodes.Keys, level, n, h)
    ensures HashRow(nodes, level, n, q, h).Some? && Assigns(HashRow(nodes, level, n, q, h).value, values)
    decreases ParentCount(n) - q
  {
    if q < ParentCount(n) {
      if !BothChildren(nodes.Keys, level, q, n) {
        HashRowSucceeds(nodes, level, n, q + 1, values, h);
      } else {
        var parent := h(nodes[Pos(level, LeftChild(q))], nodes[Pos(level, RightChild(q, n))]);
        var next := AddNode(nodes, Pos(level + 1, q), parent).value;
        assert forall r :: BothChildren(next.Keys, level, r, n) <==> BothChildren(nodes.Keys, level, r, n);
        HashRowSucceeds(next, level, n, q + 1, values, h);
      }
    }
  }

  lemma RowKeys<D(!new)>(nodes: Nodes<D>, out: Nodes<D>, level: nat, n: u64, h: (D, D) -> D)
    requires RowDone(nodes, out, level, n, 0, h)
    ensures out.Keys == KnownRow(nodes.Keys, level, n)
  {
  }

  /** The result of hashing up from `level`: `all` extends `nodes`, and each row above is the hash of the one below. */
  ghost predicate HashedUp<D(!new)>(nodes: Nodes<D>, all: Nodes<D>, leafCount: u64, level: nat, h: (D, D) -> D) {
    && (forall pos <- nodes :: pos in all && all[pos] == nodes[pos])
    && (forall pos <- all :: pos in nodes || pos.level > level)
    && (forall k | level <= k < Depth(leafCount) :: RowHashed(all, k, NodeCount(leafCount, k), h))
  }

  ghost predicate RowHashed<D(!new)>(all: Nodes<D>, level: nat, n: u64, h: (D, D) -> D) {
    forall q | 0 <= q < ParentCount(n) && BothChildren(all.Keys, level, q, n) ::
      Pos(level + 1, q) in all &&
      all[Pos(level + 1, q)] == h(all[Pos(level, LeftChild(q))], all[Pos(level, RightChild(q, n))])
  }

  lemma {:induction false} HashUpDoes<D(!new)>(nodes: Nodes<D>, leafCount: u64, level: nat, n: u64, h: (D, D) -> D)
    requires 0 < leafCount < U64_MAX && level <= Depth(leafCount) && n == NodeCount(leafCount, level)
    requires HashUp(nodes, level, n, h).Some?
    ensures var (all, top) := HashUp(nodes, level, n, h).value;
            top == Depth(leafCount) && all.Keys == Closure(nodes.Keys, level, n) &&
            HashedUp(nodes, all, leafCount, level, h)
    decreases n
  {
    NodeCountStep(leafCount, level);
    DepthIsFirstSingle(leafCount, level);
    if n > 1 {
      var next := HashRow(nodes, level, n, 0, h).value;
      HashRowDoes(nodes, level, n, 0, h);
      RowKeys(nodes, next, level, n, h);
      HashUpDoes(next, leafCount, level + 1, ParentCount(n), h);
      RowThenUp(nodes, next, HashUp(nodes, level, n, h).value.0, leafCount, level, h);
    }
  }

  lemma RowThenUp<D(!new)>(nodes: Nodes<D>, next: Nodes<D>, all: Nodes<D>, leafCount: u64, level: nat, h: (D, D) -> D)
    requires 0 < leafCount < U64_MAX
    requires RowDone(nodes, next, level, NodeCount(leafCount, level), 0, h)
    requires HashedUp(next, all, leafCount, level + 1, h)
    ensures HashedUp(nodes, all, leafCount, level, h)
  {
    hide NodeCount, Depth;
    var n := NodeCount(leafCount, level);
    forall q | 0 <= q < ParentCount(n) && BothChildren(all.Keys, level, q, n)
      ensures Pos(level + 1, q) in all
      ensures all[Pos(level + 1, q)] == h(all[Pos(level, LeftChild(q))], all[Pos(level, RightChild(q, n))])
    {
      assert BothChildren(nodes.Keys, level, q, n);
    }
    assert RowHashed(all, level, n, h);
  }

  lemma {:induction false} HashUpSucceeds<D(!new)>(nodes: Nodes<D>, leafCount: u64, level: nat, n: u64,
                                                  values: Pos -> D, h: (D, D) -> D)
    requires 0 < leafCount < U64_MAX && level <= Depth(leafCount) && n == NodeCount(leafCount, level)
    requires Assigns(nodes, values)
    requires Consistent(values, Closure(nodes.Keys, level, n), leafCount, h)
    ensures HashUp(nodes, level, n, h).Some? && Assigns(HashUp(nodes, level, n, h).value.0, values)
    decreases n
  {
    hide NodeCount, Depth, KnownRow, HashRow;
    NodeCountStep(leafCount, level);
    DepthIsFirstSingle(leafCount, level);
    if n > 1 {
      ClosureGrows(nodes.Keys, level, n);
      assert RowConsistent(values, Closure(nodes.Keys, level, n), level, n, h);
      HashRowSucceeds(nodes, level, n, 0, values, h);
      var next := HashRow(nodes, level, n, 0, h).value;
      HashRowDoes(nodes, level, n, 0, h);
      RowKeys(nodes, next, level, n, h);
      HashUpSucceeds(next, leafCount, level + 1, ParentCount(n), values, h);
    }
  }

  lemma {:induction false} ClosureGrows(known: set<Pos>, level: nat, n: u64)
    ensures known <= Closure(known, level, n)
    decreases n
  {
    if n > 1 {
      var next := KnownRow(known, level, n);
      ClosureGrows(next, level + 1, ParentCount(n));
      assert known <= next;
    }
  }

  // -------- the supplied nodes --------

  lemma {:induction false} AddLeavesDoes<D(!new)>(nodes: Nodes<D>, items: seq<LeafItem<D>>, leafCount: u64)
    requires AddLeaves(nodes, items, leafCount).Some?
    ensures var out := AddLeaves(nodes, items, leafCount).value;
            && (forall pos <- nodes :: pos in out && out[pos] == nodes[pos])
            && (forall l <- items :: l.index < leafCount && Pos(0, l.index) in out && out[Pos(0, l.index)] == l.hash)
            && out.Keys == nodes.Keys + set l <- items :: Pos(0, l.index)
    decreases items
  {
    if items != [] {
      var next := AddNode(nodes, Pos(0, items[0].index), items[0].hash).value;
      AddLeavesDoes(next, items[1..], leafCount);
      assert items == [items[0]] + items[1..];
    }
  }

  lemma {:induction false} AddSidesDoes<D(!new)>(nodes: Nodes<D>, sides: seq<SideNode<D>>, leafCount: u64)
    requires AddSides(nodes, sides, leafCount).Some?
    ensures var out := AddSides(nodes, sides, leafCount).value;
            && (forall pos <- nodes :: pos in out && out[pos] == nodes[pos])
            && (forall s <- sides :: PosInTree(s.pos, leafCount) && s.pos in out && out[s.pos] == s.hash)
            && out.Keys == nodes.Keys + set s <- sides :: s.pos
    decreases sides
  {
    if sides != [] {
      var next := AddNode(nodes, sides[0].pos, sides[0].hash).value;
      AddSidesDoes(next, sides[1..], leafCount);
      assert sides == [sides[0]] + sides[1..];
    }
  }

  lemma {:induction false} AddLeavesSucceeds<D(!new)>(nodes: Nodes<D>, items: seq<LeafItem<D>>, leafCount: u64,
                                                     values: Pos -> D)
    requires Assigns(nodes, values)
    requires forall l <- items :: l.index < leafCount && l.hash == values(Pos(0, l.index))
    ensures AddLeaves(nodes, items, leafCount).Some? && Assigns(AddLeaves(nodes, items, leafCount).value, values)
    decreases items
  {
    if items != [] {
      assert items[0] in items;
      AddLeavesSucceeds(AddNode(nodes, Pos(0, items[0].index), items[0].hash).value, items[1..], leafCount, values);
    }
  }

  lemma {:induction false} AddSidesSucceeds<D(!new)>(nodes: Nodes<D>, sides: seq<SideNode<D>>, leafCount: u64,
                                                    values: Pos -> D)
    requires Assigns(nodes, values)
    requires forall s <- sides :: PosInTree(s.pos, leafCount) && s.hash == values(s.pos)
    ensures AddSides(nodes, sides, leafCount).Some? && Assigns(AddSides(nodes, sides, leafCount).value, values)
    decreases sides
  {
    if sides != [] {
      assert sides[0] in sides;
      AddSidesSucceeds(AddNode(nodes, sides[0].pos, sides[0].hash).value, sides[1..], leafCount, values);
    }
  }

  /** The proof carries, at each of its positions, the hash that `values` assigns there. */
  ghost predicate Carries<D(!new)>(p: MultiProof<D>, values: Pos -> D) {
    && p.leaves != []
    && (forall l <- p.leaves :: l.index < p.leafCount && l.hash == values(Pos(0, l.index)))
    && (forall s <- p.sides :: PosInTree(s.pos, p.leafCount) && s.hash == values(s.pos))
  }

  /** Any proof whose hashes follow a consistent assignment is accepted with the root that the assignment has. */
  lemma ConsistentProofVerifies<D(!new)>(p: MultiProof<D>, values: Pos -> D, h: (D, D) -> D)
    requires 0 < p.leafCount < U64_MAX && Carries(p, values)
    requires Consistent(values, Known(p), p.leafCount, h)
    ensures var root := Pos(Depth(p.leafCount), 0);
            Verify(p, h) == if root in Known(p) then Some(values(root)) else None
  {
    AddLeavesSucceeds(map[], p.leaves, p.leafCount, values);
    AddLeavesDoes(map[], p.leaves, p.leafCount);
    var leafNodes: Nodes<D> := AddLeaves(map[], p.leaves, p.leafCount).value;
    AddSidesSucceeds(leafNodes, p.sides, p.leafCount, values);
    AddSidesDoes(leafNodes, p.sides, p.leafCount);
    var nodes: Nodes<D> := AddSides(leafNodes, p.sides, p.leafCount).value;
    assert nodes.Keys == Positions(p);
    HashUpSucceeds(nodes, p.leafCount, 0, p.leafCount, values, h);
    HashUpDoes(nodes, p.leafCount, 0, p.leafCount, h);
  }

  // -------- honest proofs --------

  /** The hash of each node of the tree over `leaves`. */
  function TreeValue<D>(leaves: seq<D>, h: (D, D) -> D, pos: Pos): D
    requires leaves != []
  {
    var layer := Layer(leaves, pos.level, h);
    if pos.index < |layer| then layer[pos.index] else leaves[0]
  }

  function TreeValues<D>(leaves: seq<D>, h: (D, D) -> D): Pos -> D
    requires leaves != []
  {
    (pos: Pos) => TreeValue(leaves, h, pos)
  }

  lemma TreeIsConsistent<D(!new)>(leaves: seq<D>, known: set<Pos>, h: (D, D) -> D)
    requires 0 < |leaves| < U64_MAX
    ensures Consistent(TreeValues(leaves, h), known, |leaves|, h)
  {
    forall k | 0 <= k < Depth(|leaves|)
      ensures RowConsistent(TreeValues(leaves, h), known, k, NodeCount(|leaves|, k), h)
    {
      NodeCountStep(|leaves|, k);
      forall q | 0 <= q < ParentCount(NodeCount(|leaves|, k)) {
        TreeStep(leaves, k, q, h);
      }
    }
  }

  lemma TreeStep<D>(leaves: seq<D>, k: nat, q: nat, h: (D, D) -> D)
    requires 0 < |leaves| < U64_MAX && q < NodeCount(|leaves|, k + 1)
    ensures TreeValues(leaves, h)(Pos(k + 1, q)) ==
            h(TreeValues(leaves, h)(Pos(k, LeftChild(q))),
              TreeValues(leaves, h)(Pos(k, RightChild(q, NodeCount(|leaves|, k)))))
  {
    LayerSize(leaves, k, h);
    LayerSize(leaves, k + 1, h);
    LayerStep(leaves, k, h);
  }

  /** A proof made of the tree's own hashes is accepted, with the tree's root, exactly when it reaches the root. */
  lemma HonestProofVerifies<D(!new)>(p: MultiProof<D>, leaves: seq<D>, h: (D, D) -> D)
    requires 0 < |leaves| < U64_MAX && p.leafCount == |leaves| && Carries(p, TreeValues(leaves, h))
    ensures Verify(p, h) == if Pos(Depth(|leaves|), 0) in Known(p) then Some(Root(leaves, h)) else None
  {
    TreeIsConsistent(leaves, Known(p), h);
    ConsistentProofVerifies(p, TreeValues(leaves, h), h);
    RootIsTopLayer(leaves, h);
  }

  // -------- soundness --------

  /** The verifier hashed, somewhere, a pair that differs from the tree's pair there but has the same hash. */
  ghost predicate Collision<D(!new)>(all: Nodes<D>, leaves: seq<D>, h: (D, D) -> D)
    requires 0 < |leaves| < U64_MAX
  {
    exists k, q |
      0 <= k < Depth(|leaves|) && 0 <= q < NodeCount(|leaves|, k + 1) &&
      BothChildren(all.Keys, k, q, NodeCount(|leaves|, k)) ::
      var left, right := Pos(k, LeftChild(q)), Pos(k, RightChild(q, NodeCount(|leaves|, k)));
      var tree := TreeValues(leaves, h);
      (all[left], all[right]) != (tree(left), tree(right)) &&
      h(all[left], all[right]) == h(tree(left), tree(right))
  }

  lemma {:induction false} BoundNodeIsGenuine<D(!new)>(nodes: Nodes<D>, all: Nodes<D>, leaves: seq<D>, level: nat,
                                                      i: nat, h: (D, D) -> D)
    requires 0 < |leaves| < U64_MAX && level <= Depth(|leaves|) && i < NodeCount(|leaves|, level)
    requires HashedUp(nodes, all, |leaves|, 0, h)
    requires Pos(Depth(|leaves|), 0) in all && all[Pos(Depth(|leaves|), 0)] == Root(leaves, h)
    requires Bound(all.Keys, |leaves|, level, i)
    ensures Pos(level, i) in all
    ensures all[Pos(level, i)] == TreeValues(leaves, h)(Pos(level, i)) || Collision(all, leaves, h)
    decreases Depth(|leaves|) - level
  {
    hide NodeCount, Layer, Root;
    DepthIsFirstSingle(|leaves|, level);
    if level == Depth(|leaves|) {
      RootIsTopLayer(leaves, h);
    } else {
      var q, n := i / 2, NodeCount(|leaves|, level);
      NodeCountStep(|leaves|, level);
      BoundNodeIsGenuine(nodes, all, leaves, level + 1, q, h);
      TreeStep(leaves, level, q, h);
      var left, right := Pos(level, LeftChild(q)), Pos(level, RightChild(q, n));
      assert i == left.index || i == right.index;
      assert RowHashed(all, level, n, h) && BothChildren(all.Keys, level, q, n);
    }
  }

  /** The nodes the verifier holds when it has hashed its way up. */
  function AllNodes<D(==)>(p: MultiProof<D>, h: (D, D) -> D): Nodes<D>
    requires Verify(p, h).Some?
  {
    HashUp(Supplied(p).value, 0, p.leafCount, h).value.0
  }

  /**
   Soundness: a proof accepted with the root of a tree pins every bound leaf to the tree's own leaf, unless proof and
   tree together exhibit a hash collision.
   */
  lemma BoundLeafIsGenuine<D(!new)>(p: MultiProof<D>, leaves: seq<D>, l: LeafItem<D>, h: (D, D) -> D)
    requires 0 < |leaves| < U64_MAX && p.leafCount == |leaves|
    requires Verify(p, h) == Some(Root(leaves, h))
    requires l in p.leaves && Bound(Known(p), |leaves|, 0, l.index)
    ensures l.index < |leaves|
    ensures l.hash == leaves[l.index] || Collision(AllNodes(p, h), leaves, h)
  {
    var leafNodes: Nodes<D> := AddLeaves(map[], p.leaves, p.leafCount).value;
    var nodes: Nodes<D> := Supplied(p).value;
    AddLeavesDoes(map[], p.leaves, p.leafCount);
    AddSidesDoes(leafNodes, p.sides, p.leafCount);
    assert nodes.Keys == Positions(p);
    HashUpDoes(nodes, p.leafCount, 0, p.leafCount, h);
    BoundNodeIsGenuine(nodes, AllNodes(p, h), leaves, 0, l.index, h);
  }

  // -------- which proofs verify at all --------

  /** What the verifier asks of leaves and side nodes: inside the claimed tree, and of one hash at each position. */
  ghost predicate WellSupplied<D(!new)>(p: MultiProof<D>) {
    && p.leafCount > 0 && p.leaves != []
    && (forall l <- p.leaves :: l.index < p.leafCount)
    && (forall s <- p.sides :: s.pos.level <= Depth(p.leafCount) && s.pos.index < NodeCount(p.leafCount, s.pos.level))
    && (forall l <- p.leaves, m <- p.leaves | l.index == m.index :: l.hash == m.hash)
    && (forall s <- p.sides, t <- p.sides | s.pos == t.pos :: s.hash == t.hash)
    && (forall l <- p.leaves, s <- p.sides | s.pos == Pos(0, l.index) :: s.hash == l.hash)
  }

  ghost function HashAt<D(!new)>(p: MultiProof<D>, pos: Pos): D
    requires p.leaves != []
  {
    if exists l <- p.leaves :: Pos(0, l.index) == pos then
      var l :| l in p.leaves && Pos(0, l.index) == pos; l.hash
    else if exists s <- p.sides :: s.pos == pos then
      var s :| s in p.sides && s.pos == pos; s.hash
    else p.leaves[0].hash
  }

  ghost function HashesOf<D(!new)>(p: MultiProof<D>): Pos -> D
    requires p.leaves != []
  {
    (pos: Pos) => HashAt(p, pos)
  }

  lemma SuppliedIff<D(!new)>(p: MultiProof<D>)
    ensures Supplied(p).Some? <==> WellSupplied(p)
  {
    hide Depth, NodeCount;
    if p.leafCount > 0 && p.leaves != [] {
      if WellSupplied(p) {
        forall l <- p.leaves
          ensures l.hash == HashesOf(p)(Pos(0, l.index))
        {
        }
        forall s <- p.sides
          ensures PosInTree(s.pos, p.leafCount) && s.hash == HashesOf(p)(s.pos)
        {
        }
        AddLeavesSucceeds(map[], p.leaves, p.leafCount, HashesOf(p));
        AddSidesSucceeds(AddLeaves(map[], p.leaves, p.leafCount).value, p.sides, p.leafCount, HashesOf(p));
      }
      if Supplied(p).Some? {
        AddLeavesDoes(map[], p.leaves, p.leafCount);
        AddSidesDoes(AddLeaves(map[], p.leaves, p.leafCount).value, p.sides, p.leafCount);
      }
    }
  }

  /** What the verifier holds in the end, as an assignment to all positions. */
  ghost function Held<D(!new)>(p: MultiProof<D>, h: (D, D) -> D): Pos -> D
    requires Verify(p, h).Some?
  {
    var all := AllNodes(p, h);
    var (_, top) := HashUp(Supplied(p).value, 0, p.leafCount, h).value;
    (pos: Pos) => if pos in all then all[pos] else all[Pos(top, 0)]
  }

  /** A proof verifies exactly when some assignment that hashes upwards carries it and its root can be derived. */
  lemma VerifiesIff<D(!new)>(p: MultiProof<D>, h: (D, D) -> D)
    requires 0 < p.leafCount < U64_MAX
    ensures Verify(p, h).Some? <==>
      && Pos(Depth(p.leafCount), 0) in Known(p)
      && exists values :: Carries(p, values) && Consistent(values, Known(p), p.leafCount, h)
  {
    hide Depth, NodeCount, Closure, HashUp, AddLeaves, AddSides, RowHashed, BothChildren, Carries, Consistent;
    if Verify(p, h).Some? {
      HeldIsConsistent(p, h);
    }
    if exists values :: Carries(p, values) && Consistent(values, Known(p), p.leafCount, h) {
      var values :| Carries(p, values) && Consistent(values, Known(p), p.leafCount, h);
      ConsistentProofVerifies(p, values, h);
    }
  }

  lemma HeldIsConsistent<D(!new)>(p: MultiProof<D>, h: (D, D) -> D)
    requires 0 < p.leafCount < U64_MAX && Verify(p, h).Some?
    ensures Carries(p, Held(p, h)) && Consistent(Held(p, h), Known(p), p.leafCount, h)
    ensures Pos(Depth(p.leafCount), 0) in Known(p)
  {
    hide Depth, Closure;
    var leafNodes: Nodes<D> := AddLeaves(map[], p.leaves, p.leafCount).value;
    var nodes: Nodes<D> := Supplied(p).value;
    AddLeavesDoes(map[], p.leaves, p.leafCount);
    AddSidesDoes(leafNodes, p.sides, p.leafCount);
    assert nodes.Keys == Positions(p);
    HashUpDoes(nodes, p.leafCount, 0, p.leafCount, h);
    var all := AllNodes(p, h);
    forall k | 0 <= k < Depth(p.leafCount)
      ensures RowConsistent(Held(p, h), all.Keys, k, NodeCount(p.leafCount, k), h)
    {
      assert RowHashed(all, k, NodeCount(p.leafCount, k), h);
    }
  }
}
