/** The duplicated-last-node Merkle tree, and the positions of its nodes. */
module MerkleTree {
  import opened Common

  /** A node's level above the leaves and its index in that level. */
  datatype Pos = Pos(level: nat, index: nat)

  /** 64-bit `(n + 1) / 2`. */
  function ParentCount(n: u64): (r: u64)
    ensures n < U64_MAX ==> r == (n + 1) / 2
    ensures n > 1 ==> r < n
  {
    Wrap64(n + 1) / 2
  }

  function NodeCount(leafCount: u64, level: nat): (r: u64)
    ensures r >= 1 || (level == 0 && leafCount == 0)
  {
    if level == 0 then leafCount
    else if leafCount <= 1 then 1
    else if ParentCount(leafCount) == 0 then 1
    else NodeCount(ParentCount(leafCount), level - 1)
  }

  function Depth(leafCount: u64): nat {
    if leafCount <= 1 then 0 else 1 + Depth(ParentCount(leafCount))
  }

  method TreeDepth(leafCount: u64) returns (d: nat)
    ensures d == Depth(leafCount)
  {
    var n := leafCount;
    d := 0;
    while n > 1
      invariant d + Depth(n) == Depth(leafCount)
    {
      n, d := ParentCount(n), d + 1;
    }
  }

  method NodeCountAtLevel(leafCount: u64, level: nat) returns (n: u64)
    ensures n == if leafCount == 0 then 1 else NodeCount(leafCount, level)
  {
    n := leafCount;
    for i := 0 to level
      invariant leafCount != 0 ==> (if n == 0 then 1 else NodeCount(n, level - i)) == NodeCount(leafCount, level)
      invariant leafCount == 0 ==> n == 0
    {
      if n <= 1 {
        return 1;
      }
      n := ParentCount(n);
    }
    return if n == 0 then 1 else n;
  }

  /** Children of node `q` on the level above a level of `n` nodes; the last node of an odd level is its own sibling. */
  function LeftChild(q: nat): nat {
    2 * q
  }

  function RightChild(q: nat, n: nat): nat {
    if 2 * q + 1 < n then 2 * q + 1 else 2 * q
  }

  function Sibling(i: nat): (s: nat)
    ensures s != i && s / 2 == i / 2 && Sibling'(s) == i
  {
    Sibling'(i)
  }

  function Sibling'(i: nat): nat {
    if i % 2 == 0 then i + 1 else i - 1
  }

  function ParentRow<D>(row: seq<D>, h: (D, D) -> D): (up: seq<D>)
    ensures |up| == (|row| + 1) / 2
    ensures forall q | 0 <= q < |up| :: up[q] == h(row[LeftChild(q)], row[RightChild(q, |row|)])
  {
    seq((|row| + 1) / 2, q requires 0 <= q < (|row| + 1) / 2 => h(row[LeftChild(q)], row[RightChild(q, |row|)]))
  }

  function Layer<D>(leaves: seq<D>, level: nat, h: (D, D) -> D): seq<D>
    decreases level
  {
    if level == 0 then leaves else Layer(ParentRow(leaves, h), level - 1, h)
  }

  function Root<D>(leaves: seq<D>, h: (D, D) -> D): D
    requires leaves != []
    decreases |leaves|
  {
    if |leaves| == 1 then leaves[0] else Root(ParentRow(leaves, h), h)
  }

  lemma {:induction false} LayerSize<D>(leaves: seq<D>, level: nat, h: (D, D) -> D)
    requires 0 < |leaves| < U64_MAX
    ensures |Layer(leaves, level, h)| == NodeCount(|leaves|, level)
    decreases level
  {
    if level > 0 {
      LayerSize(ParentRow(leaves, h), level - 1, h);
      if |leaves| == 1 {
        NodeCountOfOne(level - 1);
      }
    }
  }

  lemma {:induction false} NodeCountOfOne(level: nat)
    ensures NodeCount(1, level) == 1
  {
  }

  lemma {:induction false} LayerStep<D>(leaves: seq<D>, level: nat, h: (D, D) -> D)
    ensures Layer(leaves, level + 1, h) == ParentRow(Layer(leaves, level, h), h)
    decreases level
  {
    if level > 0 {
      LayerStep(ParentRow(leaves, h), level - 1, h);
    }
  }

  lemma {:induction false} NodeCountStep(leafCount: u64, level: nat)
    requires 0 < leafCount < U64_MAX
    ensures NodeCount(leafCount, level) < U64_MAX
    ensures NodeCount(leafCount, level + 1) == (NodeCount(leafCount, level) + 1) / 2
  {
    if level > 0 && leafCount > 1 {
      NodeCountStep(ParentCount(leafCount), level - 1);
    }
  }

  /** The depth is the first level with a single node. */
  lemma {:induction false} DepthIsFirstSingle(leafCount: u64, level: nat)
    requires 0 < leafCount < U64_MAX
    ensures level >= Depth(leafCount) <==> NodeCount(leafCount, level) == 1
  {
    if level > 0 && leafCount > 1 {
      DepthIsFirstSingle(ParentCount(leafCount), level - 1);
    }
  }

  lemma {:induction false} RootIsTopLayer<D>(leaves: seq<D>, h: (D, D) -> D)
    requires 0 < |leaves| < U64_MAX
    ensures Layer(leaves, Depth(|leaves|), h) == [Root(leaves, h)]
    decreases |leaves|
  {
    if |leaves| > 1 {
      RootIsTopLayer(ParentRow(leaves, h), h);
    }
  }

  /** Changing leaf `i` changes, on each level, at most the ancestor of `i`. */
  lemma {:induction false} LayerAfterUpdate<D>(leaves: seq<D>, i: nat, d: D, level: nat, h: (D, D) -> D)
    requires i < |leaves|
    ensures |Layer(leaves[i := d], level, h)| == |Layer(leaves, level, h)|
    ensures forall j | 0 <= j < |Layer(leaves, level, h)| && j != Ancestor(i, level) ::
              Layer(leaves[i := d], level, h)[j] == Layer(leaves, level, h)[j]
    decreases level
  {
    if level > 0 {
      LayerAfterUpdate(leaves, i, d, level - 1, h);
      LayerStep(leaves, level - 1, h);
      LayerStep(leaves[i := d], level - 1, h);
      AncestorStep(i, level - 1);
    }
  }

  /** The index, `level` levels up, of the node above index `i`. */
  function Ancestor(i: nat, level: nat): nat {
    if level == 0 then i else Ancestor(i / 2, level - 1)
  }

  lemma {:induction false} AncestorStep(i: nat, level: nat)
    ensures Ancestor(i, level + 1) == Ancestor(i, level) / 2
  {
    if level > 0 {
      AncestorStep(i / 2, level - 1);
    }
  }

  lemma {:induction false} AncestorInRange(i: nat, leafCount: u64, level: nat)
    requires i < leafCount < U64_MAX
    ensures Ancestor(i, level) < NodeCount(leafCount, level)
  {
    if level > 0 {
      AncestorInRange(i, leafCount, level - 1);
      AncestorStep(i, level - 1);
      NodeCountStep(leafCount, level - 1);
    }
  }

  function PowerOfTwo(k: nat): (p: nat)
    ensures p > 0
  {
    if k == 0 then 1 else 2 * PowerOfTwo(k - 1)
  }

  /** The root of a full tree is the hash of the roots of its halves, the left one first. */
  lemma {:induction false} RootOfHalves<D>(left: seq<D>, right: seq<D>, k: nat, h: (D, D) -> D)
    requires |left| == |right| == PowerOfTwo(k)
    ensures Root(left + right, h) == h(Root(left, h), Root(right, h))
    decreases k
  {
    if k == 0 {
      RootOfTwo(left[0], right[0], h);
      assert left + right == [left[0], right[0]];
    } else {
      ParentsOfHalves(left, right, |left| / 2, h);
      hide ParentRow;
      RootOfHalves(ParentRow(left, h), ParentRow(right, h), k - 1, h);
    }
  }

  lemma RootOfTwo<D>(a: D, b: D, h: (D, D) -> D)
    ensures Root([a, b], h) == h(a, b)
  {
    assert ParentRow([a, b], h) == [h(a, b)];
  }

  lemma ParentsOfHalves<D>(left: seq<D>, right: seq<D>, m: nat, h: (D, D) -> D)
    requires |left| == 2 * m
    ensures ParentRow(left + right, h) == ParentRow(left, h) + ParentRow(right, h)
  {
    var row, a, b := left + right, ParentRow(left, h), ParentRow(right, h);
    var both := ParentRow(row, h);
    hide ParentRow;
    forall q | 0 <= q < |b|
      ensures both[m + q] == b[q]
    {
      assert row[LeftChild(m + q)] == right[LeftChild(q)];
      assert row[RightChild(m + q, |row|)] == right[RightChild(q, |right|)];
    }
    forall q | 0 <= q < m
      ensures both[q] == a[q]
    {
      assert row[LeftChild(q)] == left[LeftChild(q)];
      assert row[RightChild(q, |row|)] == left[RightChild(q, |left|)];
    }
  }
}
