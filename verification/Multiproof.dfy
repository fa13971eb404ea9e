/** Merkle multiproofs: what the verifier and the prover compute, and their loops. */
module Multiproof {
  import opened Common
  import opened MerkleTree

  datatype LeafItem<D> = LeafItem(index: u64, hash: D)
  datatype SideNode<D> = SideNode(pos: Pos, hash: D)
  datatype MultiProof<D> = MultiProof(leafCount: u64, leaves: seq<LeafItem<D>>, sides: seq<SideNode<D>>)

  type Nodes<D> = map<Pos, D>

  // -------- verification --------

  /** Record a node's hash, unless another hash is already recorded for it. */
  function AddNode<D(==)>(nodes: Nodes<D>, pos: Pos, d: D): Option<Nodes<D>> {
    if pos !in nodes then Some(nodes[pos := d]) else if nodes[pos] == d then Some(nodes) else None
  }

  function AddLeaves<D(==)>(nodes: Nodes<D>, leaves: seq<LeafItem<D>>, leafCount: u64): Option<Nodes<D>>
    decreases leaves
  {
    if leaves == [] then Some(nodes)
    else if leaves[0].index >= leafCount then None
    else
      match AddNode(nodes, Pos(0, leaves[0].index), leaves[0].hash)
      case None => None
      case Some(next) => AddLeaves(next, leaves[1..], leafCount)
  }

  function AddSides<D(==)>(nodes: Nodes<D>, sides: seq<SideNode<D>>, leafCount: u64): Option<Nodes<D>>
    decreases sides
  {
    if sides == [] then Some(nodes)
    else if !PosInTree(sides[0].pos, leafCount) then None
    else
      match AddNode(nodes, sides[0].pos, sides[0].hash)
      case None => None
      case Some(next) => AddSides(next, sides[1..], leafCount)
  }

  predicate PosInTree(pos: Pos, leafCount: u64) {
    pos.level <= Depth(leafCount) && pos.index < NodeCount(leafCount, pos.level)
  }

  predicate BothChildren(known: set<Pos>, level: nat, q: nat, n: nat) {
    Pos(level, LeftChild(q)) in known && Pos(level, RightChild(q, n)) in known
  }

  /** One pass over the parents `q`, `q + 1`, ... of a level with `n` nodes. */
  function HashRow<D(==)>(nodes: Nodes<D>, level: nat, n: u64, q: nat, h: (D, D) -> D): Option<Nodes<D>>
    decreases ParentCount(n) - q
  {
    if q >= ParentCount(n) then Some(nodes)
    else if !BothChildren(nodes.Keys, level, q, n) then HashRow(nodes, level, n, q + 1, h)
    else
      var parent := h(nodes[Pos(level, LeftChild(q))], nodes[Pos(level, RightChild(q, n))]);
      match AddNode(nodes, Pos(level + 1, q), parent)
      case None => None
      case Some(next) => HashRow(next, level, n, q + 1, h)
  }

  function HashUp<D(==)>(nodes: Nodes<D>, level: nat, n: u64, h: (D, D) -> D): Option<(Nodes<D>, nat)>
    decreases n
  {
    if n <= 1 then Some((nodes, level))
    else
      match HashRow(nodes, level, n, 0, h)
      case None => None
      case Some(next) => HashUp(next, level + 1, ParentCount(n), h)
  }

  function Supplied<D(==)>(p: MultiProof<D>): Option<Nodes<D>> {
    if p.leafCount == 0 || p.leaves == [] then None
    else
      match AddLeaves(map[], p.leaves, p.leafCount)
      case None => None
      case Some(nodes) => AddSides(nodes, p.sides, p.leafCount)
  }

  function Verify<D(==)>(p: MultiProof<D>, h: (D, D) -> D): Option<D> {
    match Supplied(p)
    case None => None
    case Some(nodes) =>
      match HashUp(nodes, 0, p.leafCount, h)
      case None => None
      case Some((all, top)) => if Pos(top, 0) in all then Some(all[Pos(top, 0)]) else None
  }

  method VerifyAndRoot<D(==)>(p: MultiProof<D>, h: (D, D) -> D) returns (root: Option<D>)
    ensures root == Verify(p, h)
  {
    if p.leafCount == 0 || p.leaves == [] {
      return None;
    }
    var nodes: Nodes<D> := map[];
    assert p.leaves[0..] == p.leaves && p.sides[0..] == p.sides;
    for i := 0 to |p.leaves|
      invariant AddLeaves(nodes, p.leaves[i..], p.leafCount) == AddLeaves(map[], p.leaves, p.leafCount)
    {
      assert p.leaves[i..][1..] == p.leaves[i + 1..];
      if p.leaves[i].index >= p.leafCount {
        return None;
      }
      var added := AddNode(nodes, Pos(0, p.leaves[i].index), p.leaves[i].hash);
      if added.None? {
        return None;
      }
      nodes := added.value;
    }
    var maxLevel := TreeDepth(p.leafCount);
    ghost var leafNodes := nodes;
    for i := 0 to |p.sides|
      invariant AddSides(nodes, p.sides[i..], p.leafCount) == AddSides(leafNodes, p.sides, p.leafCount)
    {
      assert p.sides[i..][1..] == p.sides[i + 1..];
      var pos := p.sides[i].pos;
      if pos.level > maxLevel {
        return None;
      }
      var n := NodeCountAtLevel(p.leafCount, pos.level);
      if pos.index >= n {
        return None;
      }
      var added := AddNode(nodes, pos, p.sides[i].hash);
      if added.None? {
        return None;
      }
      nodes := added.value;
    }
    ghost var supplied := nodes;
    var level, n := 0, p.leafCount;
    while n > 1
      invariant HashUp(nodes, level, n, h) == HashUp(supplied, 0, p.leafCount, h)
    {
      ghost var row := nodes;
      for q := 0 to ParentCount(n)
        invariant HashRow(nodes, level, n, q, h) == HashRow(row, level, n, 0, h)
      {
        var left, right := Pos(level, LeftChild(q)), Pos(level, RightChild(q, n));
        if left in nodes && right in nodes {
          var added := AddNode(nodes, Pos(level + 1, q), h(nodes[left], nodes[right]));
          if added.None? {
            return None;
          }
          nodes := added.value;
        }
      }
      level, n := level + 1, ParentCount(n);
    }
    return if Pos(level, 0) in nodes then Some(nodes[Pos(level, 0)]) else None;
  }

  // -------- proof construction --------

  predicate PosLess(a: Pos, b: Pos) {
    if a.level != b.level then a.level < b.level else a.index < b.index
  }

  predicate SidesIncreasing<D>(s: seq<SideNode<D>>) {
    forall i, j | 0 <= i < j < |s| :: PosLess(s[i].pos, s[j].pos)
  }

  /** Sort by position, keeping one node of each position. */
  function SortSides<D>(s: seq<SideNode<D>>): (r: seq<SideNode<D>>) {
    if s == [] then [] else InsertSide(s[0], SortSides(s[1..]))
  }

  function InsertSide<D>(x: SideNode<D>, s: seq<SideNode<D>>): seq<SideNode<D>>
    decreases |s|
  {
    if s == [] || PosLess(x.pos, s[0].pos) then [x] + s
    else if x.pos == s[0].pos then [x] + s[1..]
    else [s[0]] + InsertSide(x, s[1..])
  }

  function HalveAll(need: seq<nat>): (r: seq<nat>)
    ensures |r| == |need| && forall i | 0 <= i < |need| :: r[i] == need[i] / 2
  {
    seq(|need|, i requires 0 <= i < |need| => need[i] / 2)
  }

  /** The siblings, on one level, that the needed nodes lack. */
  function RowSides<D>(need: seq<nat>, all: seq<nat>, row: seq<D>, level: nat): (r: seq<SideNode<D>>)
    decreases |need|
  {
    if need == [] then []
    else
      var s := Sibling(need[0]);
      (if s < |row| && s !in all then [SideNode(Pos(level, s), row[s])] else []) + RowSides(need[1..], all, row, level)
  }

  function Frontier<D>(need: seq<nat>, row: seq<D>, level: nat, h: (D, D) -> D): seq<SideNode<D>>
    decreases |row|
  {
    if |row| <= 1 then []
    else RowSides(need, need, row, level) + Frontier(SortUnique(HalveAll(need)), ParentRow(row, h), level + 1, h)
  }

  function LeafItems<D>(targets: seq<nat>, leaves: seq<D>): (r: seq<LeafItem<D>>)
    requires |leaves| <= U64_MAX && forall i | 0 <= i < |targets| :: targets[i] < |leaves|
    ensures |r| == |targets|
    ensures forall i | 0 <= i < |r| :: r[i].index == targets[i] && r[i].hash == leaves[targets[i]]
  {
    seq(|targets|, i requires 0 <= i < |targets| => LeafItem(targets[i], leaves[targets[i]]))
  }

  function Build<D>(leaves: seq<D>, indices: seq<nat>, h: (D, D) -> D): Option<MultiProof<D>>
    requires |leaves| <= U64_MAX
  {
    var targets := SortUnique(indices);
    if leaves == [] || targets == [] then None
    else if exists i | 0 <= i < |targets| :: targets[i] >= |leaves| then None
    else Some(MultiProof(|leaves|, LeafItems(targets, leaves), SortSides(Frontier(targets, leaves, 0, h))))
  }

  method BuildFromLeaves<D>(leaves: seq<D>, indices: seq<nat>, h: (D, D) -> D) returns (proof: Option<MultiProof<D>>)
    requires |leaves| < U64_MAX
    ensures proof == Build(leaves, indices, h)
  {
    if leaves == [] {
      return None;
    }
    var targets := SortUnique(indices);
    if targets == [] {
      return None;
    }
    for i := 0 to |targets|
      invariant forall j | 0 <= j < i :: targets[j] < |leaves|
    {
      if targets[i] >= |leaves| {
        return None;
      }
    }
    var layers := BuildLayers(leaves, h);
    var side := CollectSides(leaves, layers, targets, h);
    return Some(MultiProof(|leaves|, LeafItems(targets, leaves), SortSides(side)));
  }

  /** Every level of the tree, from the leaves to the root. */
  method BuildLayers<D>(leaves: seq<D>, h: (D, D) -> D) returns (layers: seq<seq<D>>)
    requires 0 < |leaves| < U64_MAX
    ensures layers != [] && |layers[|layers| - 1]| == 1
    ensures forall k | 0 <= k < |layers| :: layers[k] == Layer(leaves, k, h)
  {
    layers := [leaves];
    var n := |leaves|;
    while n > 1
      invariant layers != [] && 0 < n == |layers[|layers| - 1]| < U64_MAX
      invariant forall k | 0 <= k < |layers| :: layers[k] == Layer(leaves, k, h)
      decreases n
    {
      var last := layers[|layers| - 1];
      var next := [];
      for q := 0 to ParentCount(n)
        invariant |next| == q && forall j | 0 <= j < q :: next[j] == ParentRow(last, h)[j]
      {
        next := next + [h(last[LeftChild(q)], last[RightChild(q, n)])];
      }
      assert next == ParentRow(last, h);
      LayerStep(leaves, |layers| - 1, h);
      layers, n := layers + [next], ParentCount(n);
    }
  }

  lemma LayerZero<D>(leaves: seq<D>, h: (D, D) -> D)
    ensures Layer(leaves, 0, h) == leaves
  {
  }

  method CollectSides<D>(leaves: seq<D>, layers: seq<seq<D>>, targets: seq<nat>, h: (D, D) -> D)
    returns (side: seq<SideNode<D>>)
    requires layers != [] && |layers[|layers| - 1]| == 1
    requires forall k | 0 <= k < |layers| :: layers[k] == Layer(leaves, k, h)
    ensures side == Frontier(targets, leaves, 0, h)
  {
    hide Layer, ParentRow, RowSides, SortUnique, HalveAll;
    var need, level := targets, 0;
    side := [];
    assert Layer(leaves, 0, h) == leaves by {
      LayerZero(leaves, h);
    }
    ghost var frontier := Frontier(targets, leaves, 0, h);
    while |layers[level]| > 1
      invariant level < |layers|
      invariant frontier == side + Frontier(need, layers[level], level, h)
      decreases |layers| - level
    {
      var added := RowSiblings(need, layers[level], level);
      ghost var rest := Frontier(SortUnique(HalveAll(need)), layers[level + 1], level + 1, h);
      LayerStep(leaves, level, h);
      assert side + (added + rest) == side + added + rest;
      side, need, level := side + added, SortUnique(HalveAll(need)), level + 1;
    }
  }

  method RowSiblings<D>(need: seq<nat>, row: seq<D>, level: nat) returns (added: seq<SideNode<D>>)
    ensures added == RowSides(need, need, row, level)
  {
    added := [];
    assert need[0..] == need;
    for i := 0 to |need|
      invariant RowSides(need, need, row, level) == added + RowSides(need[i..], need, row, level)
    {
      assert need[i..][1..] == need[i + 1..];
      var s := Sibling(need[i]);
      ghost var rest := RowSides(need[i + 1..], need, row, level);
      if s < |row| && s !in need {
        assert added + ([SideNode(Pos(level, s), row[s])] + rest) == added + [SideNode(Pos(level, s), row[s])] + rest;
        added := added + [SideNode(Pos(level, s), row[s])];
      } else {
        assert [] + rest == rest;
      }
    }
  }
}
