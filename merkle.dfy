/** The Merkle tree over a block's transactions: leaf digests folded pairwise,
    left to right, level by level, down to a single root. */
module Merkle {
  import opened Primitives

  /** A node of the tree. A leaf has no children; an internal node owns both
      of its children. Nodes are never changed after they are built. */
  datatype MerkleNode = MerkleNode(left: Option<MerkleNode>, right: Option<MerkleNode>, data: string)

  /** The tree; it has no root exactly when it was built from no transactions. */
  datatype MerkleTree = MerkleTree(root: Option<MerkleNode>)

  /** The leaf for one transaction: the digest of its text. */
  function LeafOf(c: Codec, tx: Transaction): MerkleNode
  {
    MerkleNode(None, None, c.digest(c.txText(tx)))
  }

  /** The parent of two adjacent nodes: the digest of their data, left then
      right, with no separator. */
  function ParentOf(c: Codec, l: MerkleNode, r: MerkleNode): MerkleNode
  {
    MerkleNode(Some(l), Some(r), c.digest(l.data + r.data))
  }

  /** The bottom level: one leaf per transaction, in order. */
  function Leaves(c: Codec, transactions: seq<Transaction>): (nodes: seq<MerkleNode>)
    ensures |nodes| == |transactions|
    ensures forall i :: 0 <= i < |transactions| ==> nodes[i] == LeafOf(c, transactions[i])
  {
    seq(|transactions|, i requires 0 <= i < |transactions| => LeafOf(c, transactions[i]))
  }

  /** One fold: nodes 0 and 1 are paired, then 2 and 3, and so on; an unpaired
      last node is carried up unchanged. The level shrinks to half its length,
      rounded up. */
  function FoldLevel(c: Codec, nodes: seq<MerkleNode>): (parents: seq<MerkleNode>)
    ensures |parents| == (|nodes| + 1) / 2
    decreases |nodes|
  {
    if |nodes| == 0 then []
    else if |nodes| == 1 then [nodes[0]]
    else [ParentOf(c, nodes[0], nodes[1])] + FoldLevel(c, nodes[2..])
  }

  /** Folds a non-empty level until one node remains. */
  function Reduce(c: Codec, nodes: seq<MerkleNode>): MerkleNode
    requires |nodes| >= 1
    decreases |nodes|
  {
    if |nodes| == 1 then nodes[0] else Reduce(c, FoldLevel(c, nodes))
  }

  /** The tree built from a sequence of transactions. */
  function MerkleTreeOf(c: Codec, transactions: seq<Transaction>): (tree: MerkleTree)
    ensures tree.root.None? <==> |transactions| == 0
  {
    if |transactions| == 0 then MerkleTree(None)
    else MerkleTree(Some(Reduce(c, Leaves(c, transactions))))
  }

  /** Builds the leaf level, then rebuilds the level pairwise until a single
      node is left; an empty input gives a tree with no root. */
  method CreateMerkleTree(c: Codec, transactions: seq<Transaction>) returns (tree: MerkleTree)
    ensures tree == MerkleTreeOf(c, transactions)
  {
    var nodes: seq<MerkleNode> := [];
    for i := 0 to |transactions|
      invariant |nodes| == i
      invariant forall k :: 0 <= k < i ==> nodes[k] == LeafOf(c, transactions[k])
    {
      nodes := nodes + [MerkleNode(None, None, c.digest(c.txText(transactions[i])))];
    }
    assert nodes == Leaves(c, transactions);

    if |nodes| == 0 {
      return MerkleTree(None);
    }

    ghost var root := Reduce(c, nodes);
    while |nodes| > 1
      invariant |nodes| >= 1
      invariant Reduce(c, nodes) == root
      decreases |nodes|
    {
      var parentLevel: seq<MerkleNode> := [];
      var i := 0;
      while i < |nodes|
        invariant i == 2 * |parentLevel| <= |nodes| + 1
        invariant parentLevel == FoldLevel(c, nodes)[..|parentLevel|]
      {
        FoldLevelAt(c, nodes, |parentLevel|);
        if i + 1 < |nodes| {
          var parent := MerkleNode(Some(nodes[i]), Some(nodes[i + 1]), c.digest(nodes[i].data + nodes[i + 1].data));
          parentLevel := parentLevel + [parent];
        } else {
          parentLevel := parentLevel + [nodes[i]];
        }
        i := i + 2;
      }
      assert parentLevel == FoldLevel(c, nodes);
      nodes := parentLevel;
    }
    return MerkleTree(Some(nodes[0]));
  }

  /** Element `k` of a fold is the parent of nodes `2k` and `2k+1` when both
      exist, and node `2k` carried up unchanged otherwise. */
  lemma {:induction false} FoldLevelAt(c: Codec, nodes: seq<MerkleNode>, k: int)
    requires 0 <= k < (|nodes| + 1) / 2
    ensures FoldLevel(c, nodes)[k] ==
      if 2 * k + 1 < |nodes| then ParentOf(c, nodes[2 * k], nodes[2 * k + 1]) else nodes[2 * k]
    decreases |nodes|
  {
    if k > 0 {
      FoldLevelAt(c, nodes[2..], k - 1);
    }
  }

  /** Every fold of a level longer than one node leaves a shorter, non-empty
      level, so folding ends with exactly one node. */
  lemma FoldLevelShrinks(c: Codec, nodes: seq<MerkleNode>)
    requires |nodes| > 1
    ensures 1 <= |FoldLevel(c, nodes)| < |nodes|
  {
  }

  /** The leaves under a node, left to right. */
  function Frontier(n: MerkleNode): seq<MerkleNode>
  {
    match (n.left, n.right)
    case (Some(l), Some(r)) => Frontier(l) + Frontier(r)
    case _ => [n]
  }

  /** The leaves under a level, left to right. */
  function Flatten(nodes: seq<MerkleNode>): seq<MerkleNode>
  {
    if nodes == [] then [] else Frontier(nodes[0]) + Flatten(nodes[1..])
  }

  /** A node's data is consistent with its subtree: each internal node holds
      the digest of its children's data, left then right. */
  predicate Consistent(c: Codec, n: MerkleNode)
  {
    match (n.left, n.right)
    case (Some(l), Some(r)) => n.data == c.digest(l.data + r.data) && Consistent(c, l) && Consistent(c, r)
    case (None, None) => true
    case _ => false
  }

  /** Folding a level keeps its leaves, in order. */
  lemma {:induction false} FoldLevelKeepsLeaves(c: Codec, nodes: seq<MerkleNode>)
    ensures Flatten(FoldLevel(c, nodes)) == Flatten(nodes)
    decreases |nodes|
  {
    if |nodes| >= 2 {
      var rest := nodes[2..];
      FoldLevelKeepsLeaves(c, rest);
      assert nodes[1..][1..] == rest;
      var folded := FoldLevel(c, nodes);
      assert folded[1..] == FoldLevel(c, rest);
      calc {
        Flatten(folded);
        Frontier(ParentOf(c, nodes[0], nodes[1])) + Flatten(FoldLevel(c, rest));
        Frontier(nodes[0]) + Frontier(nodes[1]) + Flatten(rest);
        Frontier(nodes[0]) + (Frontier(nodes[1]) + Flatten(rest));
        Flatten(nodes);
      }
    }
  }

  /** Folding a level of consistent nodes gives consistent nodes. */
  lemma {:induction false} FoldLevelKeepsConsistent(c: Codec, nodes: seq<MerkleNode>)
    requires forall i :: 0 <= i < |nodes| ==> Consistent(c, nodes[i])
    ensures forall i :: 0 <= i < |FoldLevel(c, nodes)| ==> Consistent(c, FoldLevel(c, nodes)[i])
  {
    forall k | 0 <= k < |FoldLevel(c, nodes)| ensures Consistent(c, FoldLevel(c, nodes)[k]) {
      FoldLevelAt(c, nodes, k);
    }
  }

  /** Reducing a level gives a root whose leaves are those of the level, in
      order, and which is consistent when the level is. */
  lemma {:induction false} ReduceSound(c: Codec, nodes: seq<MerkleNode>)
    requires |nodes| >= 1
    ensures Frontier(Reduce(c, nodes)) == Flatten(nodes)
    ensures (forall i :: 0 <= i < |nodes| ==> Consistent(c, nodes[i])) ==> Consistent(c, Reduce(c, nodes))
    decreases |nodes|
  {
    if |nodes| == 1 {
      assert Flatten(nodes) == Frontier(nodes[0]) + Flatten(nodes[1..]);
    } else {
      FoldLevelKeepsLeaves(c, nodes);
      ReduceSound(c, FoldLevel(c, nodes));
      if forall i :: 0 <= i < |nodes| ==> Consistent(c, nodes[i]) {
        FoldLevelKeepsConsistent(c, nodes);
      }
    }
  }

  /** A level of leaves is its own list of leaves. */
  lemma {:induction false} FlattenLeaves(c: Codec, transactions: seq<Transaction>)
    ensures Flatten(Leaves(c, transactions)) == Leaves(c, transactions)
    decreases |transactions|
  {
    if transactions != [] {
      FlattenLeaves(c, transactions[1..]);
      assert Leaves(c, transactions)[1..] == Leaves(c, transactions[1..]);
    }
  }

  /** The root of a non-empty tree is consistent with its subtree, and the
      subtree's leaves are exactly the transactions' leaf digests, in order. */
  lemma MerkleTreeSound(c: Codec, transactions: seq<Transaction>)
    requires |transactions| > 0
    ensures Consistent(c, MerkleTreeOf(c, transactions).root.value)
    ensures Frontier(MerkleTreeOf(c, transactions).root.value) == Leaves(c, transactions)
  {
    var leaves := Leaves(c, transactions);
    ReduceSound(c, leaves);
    FlattenLeaves(c, transactions);
  }

  /** The small cases: no transactions give no root; one transaction gives its
      leaf as the root; two give their parent. */
  lemma MerkleSmallTrees(c: Codec, a: Transaction, b: Transaction)
    ensures MerkleTreeOf(c, []).root == None
    ensures MerkleTreeOf(c, [a]).root == Some(LeafOf(c, a))
    ensures MerkleTreeOf(c, [a]).root.value.data == c.digest(c.txText(a))
    ensures MerkleTreeOf(c, [a, b]).root.value.data ==
      c.digest(c.digest(c.txText(a)) + c.digest(c.txText(b)))
  {
    var leaves := Leaves(c, [a, b]);
    assert leaves == [LeafOf(c, a), LeafOf(c, b)];
    assert leaves[2..] == [];
    var parent := ParentOf(c, LeafOf(c, a), LeafOf(c, b));
    assert FoldLevel(c, leaves) == [parent];
    assert Reduce(c, leaves) == Reduce(c, [parent]) == parent;
    assert Leaves(c, [a]) == [LeafOf(c, a)];
  }

  /** Three transactions: the first two are paired and the third is carried
      up, then the two remaining nodes are paired. */
  lemma MerkleOddCarry(c: Codec, a: Transaction, b: Transaction, d: Transaction)
    ensures MerkleTreeOf(c, [a, b, d]).root.value.data ==
      c.digest(c.digest(c.digest(c.txText(a)) + c.digest(c.txText(b))) + c.digest(c.txText(d)))
  {
    var leaves := Leaves(c, [a, b, d]);
    assert leaves == [LeafOf(c, a), LeafOf(c, b), LeafOf(c, d)];
    var level := [ParentOf(c, leaves[0], leaves[1]), leaves[2]];
    assert leaves[2..] == [leaves[2]];
    assert FoldLevel(c, leaves) == level;
    assert level[2..] == [];
    var root := ParentOf(c, level[0], level[1]);
    assert FoldLevel(c, level) == [root];
    assert Reduce(c, leaves) == Reduce(c, level) == Reduce(c, [root]) == root;
  }

  /** The root depends on the order of the transactions: swapping two
      transactions with different leaf digests of the same length changes the
      root, provided the digest does not collide on the two concatenations. */
  lemma MerkleOrderSensitive(c: Codec, a: Transaction, b: Transaction)
    requires LeafOf(c, a).data != LeafOf(c, b).data
    requires |LeafOf(c, a).data| == |LeafOf(c, b).data|
    requires c.digest(LeafOf(c, a).data + LeafOf(c, b).data) == c.digest(LeafOf(c, b).data + LeafOf(c, a).data)
      ==> LeafOf(c, a).data + LeafOf(c, b).data == LeafOf(c, b).data + LeafOf(c, a).data
    ensures MerkleTreeOf(c, [a, b]).root.value.data != MerkleTreeOf(c, [b, a]).root.value.data
  {
    var x, y := LeafOf(c, a).data, LeafOf(c, b).data;
    assert (x + y)[..|x|] == x && (y + x)[..|y|] == y;
    MerkleSmallTrees(c, a, b);
    MerkleSmallTrees(c, b, a);
  }
}
