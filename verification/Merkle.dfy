/** The Merkle tree of merkle-tree/merkle_tree.go: a tree of nodes linked to their parents, built level by level, proofs
    collected along the parents, and a verifier that navigates by the bits of the leaf index. */
module Merkle {
  import opened Common

  type Byte = b: nat | b < 256

  const HASH_SIZE: nat := 32

  type Hash = h: seq<Byte> | |h| == HASH_SIZE witness seq(HASH_SIZE, _ => 0)

  type HashFunction = seq<Byte> -> Hash

  // ---------- The tree of hashes ----------

  /** The input of an inner node's hash. */
  function Join(x: seq<Byte>, y: seq<Byte>): seq<Byte> {
    x + y
  }

  /** The right child of the j-th node above a level: the last node of an odd level is its own right sibling. */
  function RightOf(n: nat, j: nat): (i: nat)
    requires 2 * j < n
    ensures 2 * j <= i < n
  {
    if 2 * j + 1 < n then 2 * j + 1 else 2 * j
  }

  /** The hashes of the level above. */
  ghost function Up(h: HashFunction, level: seq<Hash>): (r: seq<Hash>)
    ensures |r| == (|level| + 1) / 2
  {
    seq<Hash>((|level| + 1) / 2,
              j requires 0 <= j < (|level| + 1) / 2 => h(Join(level[2 * j], level[RightOf(|level|, j)])))
  }

  ghost function Lift(h: HashFunction, level: seq<Hash>, k: nat): seq<Hash> {
    if k == 0 then level else Up(h, Lift(h, level, k - 1))
  }

  function Pow2(k: nat): (p: nat)
    ensures p > 0
  {
    if k == 0 then 1 else 2 * Pow2(k - 1)
  }

  /** How many levels lie above one of n nodes. */
  function Depth(n: nat): nat {
    if n <= 1 then 0 else 1 + Depth((n + 1) / 2)
  }

  /** The depth is the binary logarithm rounded up. */
  lemma {:induction false} DepthIsCeilLog(n: nat)
    requires n > 0
    ensures n <= Pow2(Depth(n)) && (n > 1 ==> Pow2(Depth(n) - 1) < n)
    decreases n
  {
    if n > 1 {
      DepthIsCeilLog((n + 1) / 2);
    }
  }

  // ---------- Proofs ----------

  /** The index of the sibling of node i in a level of n. */
  function SiblingOf(n: nat, i: nat): (s: nat)
    requires i < n
    ensures s < n
  {
    if i % 2 == 1 then i - 1 else RightOf(n, i / 2)
  }

  /** The siblings on the way up from node i through k levels. */
  ghost function Path(h: HashFunction, level: seq<Hash>, i: nat, k: nat): seq<Hash>
    requires i < |level|
    decreases k
  {
    if k == 0 then [] else [level[SiblingOf(|level|, i)]] + Path(h, Up(h, level), i / 2, k - 1)
  }

  /** A hash and its sibling, on the sides that the low bit of the index tells. */
  ghost function Combine(h: HashFunction, x: Hash, sibling: Hash, index: nat): Hash {
    if index % 2 == 0 then h(Join(x, sibling)) else h(Join(sibling, x))
  }

  lemma {:induction false} UpAt(h: HashFunction, level: seq<Hash>, j: nat)
    requires j < |Up(h, level)|
    ensures Up(h, level)[j] == h(Join(level[2 * j], level[RightOf(|level|, j)]))
  {}

  lemma {:induction false} CombineGoesUp(h: HashFunction, level: seq<Hash>, i: nat)
    requires i < |level|
    ensures Combine(h, level[i], level[SiblingOf(|level|, i)], i) == Up(h, level)[i / 2]
  {
    UpAt(h, level, i / 2);
  }

  /** The root that the verifier computes. */
  ghost function Climb(h: HashFunction, x: Hash, proof: seq<Hash>, index: nat): Hash
    decreases |proof|
  {
    if proof == [] then x else
      Climb(h, Combine(h, x, proof[0], index), proof[1..], index / 2)
  }

  /** The hash k levels above node i. */
  ghost function Above(h: HashFunction, level: seq<Hash>, i: nat, k: nat): Hash
    requires i < |level|
    decreases k
  {
    if k == 0 then level[i] else Above(h, Up(h, level), i / 2, k - 1)
  }

  /** Climbing along the siblings of a node computes the hashes above it. */
  lemma {:induction false} ClimbReachesAbove(h: HashFunction, level: seq<Hash>, i: nat, k: nat)
    requires i < |level|
    ensures |Path(h, level, i, k)| == k && Climb(h, level[i], Path(h, level, i, k), i) == Above(h, level, i, k)
    decreases k
  {
    if k > 0 {
      CombineGoesUp(h, level, i);
      ClimbReachesAbove(h, Up(h, level), i / 2, k - 1);
      assert Path(h, level, i, k)[1..] == Path(h, Up(h, level), i / 2, k - 1);
    }
  }

  /** Two proofs of equal length that climb from the same index to the same root start from the same hash with the
      same siblings, or contain two different inputs with one hash. */
  lemma {:induction false} ClimbBinds(h: HashFunction, x: Hash, y: Hash, p: seq<Hash>, q: seq<Hash>, index: nat)
    returns (a: seq<Byte>, b: seq<Byte>)
    requires |p| == |q| && Climb(h, x, p, index) == Climb(h, y, q, index)
    ensures (x == y && p == q) || (a != b && h(a) == h(b))
    decreases |p|
  {
    a, b := [], [];
    if p != [] {
      var xs := if index % 2 == 0 then Join(x, p[0]) else Join(p[0], x);
      var ys := if index % 2 == 0 then Join(y, q[0]) else Join(q[0], y);
      a, b := ClimbBinds(h, h(xs), h(ys), p[1..], q[1..], index / 2);
      if h(xs) == h(ys) && p[1..] == q[1..] {
        if xs != ys {
          a, b := xs, ys;
        } else {
          Halves(x, p[0], y, q[0], index % 2 == 0);
          assert p == [p[0]] + p[1..] && q == [q[0]] + q[1..];
        }
      }
    }
  }

  lemma {:induction false} Halves(x: Hash, s: Hash, y: Hash, t: Hash, left: bool)
    requires if left then Join(x, s) == Join(y, t) else Join(s, x) == Join(t, y)
    ensures x == y && s == t
  {
    var xs := if left then Join(x, s) else Join(s, x);
    var ys := if left then Join(y, t) else Join(t, y);
    assert xs[..HASH_SIZE] == ys[..HASH_SIZE] && xs[HASH_SIZE..] == ys[HASH_SIZE..];
  }

  /** Binding: one index, one root and one length admit one leaf, up to an explicit collision. */
  lemma {:induction false} OneLeafPerIndex(h: HashFunction, leaf: seq<Byte>, other: seq<Byte>, p: seq<Hash>,
                                           q: seq<Hash>, index: nat)
    returns (a: seq<Byte>, b: seq<Byte>)
    requires |p| == |q| && Climb(h, h(leaf), p, index) == Climb(h, h(other), q, index)
    ensures (leaf == other && p == q) || (a != b && h(a) == h(b))
  {
    a, b := ClimbBinds(h, h(leaf), h(other), p, q, index);
    if h(leaf) == h(other) && leaf != other {
      a, b := leaf, other;
    }
  }

  /** An index halved k times. */
  function Half(i: nat, k: nat): nat {
    if k == 0 then i else Half(i, k - 1) / 2
  }

  lemma {:induction false} HalfShift(i: nat, k: nat)
    ensures Half(i / 2, k) == Half(i, k + 1)
    decreases k
  {
    if k > 0 { HalfShift(i, k - 1); }
  }

  lemma {:induction false} LiftShift(h: HashFunction, level: seq<Hash>, k: nat)
    ensures Lift(h, Up(h, level), k) == Lift(h, level, k + 1)
    decreases k
  {
    if k > 0 { LiftShift(h, level, k - 1); }
  }

  /** Above, Path and Lift describe the same levels. */
  lemma {:induction false} AboveIsLift(h: HashFunction, level: seq<Hash>, i: nat, k: nat)
    requires i < |level|
    ensures Half(i, k) < |Lift(h, level, k)| && Above(h, level, i, k) == Lift(h, level, k)[Half(i, k)]
    decreases k
  {
    if k > 0 {
      AboveIsLift(h, Up(h, level), i / 2, k - 1);
      HalfShift(i, k - 1);
      LiftShift(h, level, k - 1);
    }
  }

  /** The sibling passed after k levels. */
  ghost function Passed(h: HashFunction, level: seq<Hash>, i: nat, k: nat): Hash
    requires i < |level|
    decreases k
  {
    if k == 0 then level[SiblingOf(|level|, i)] else Passed(h, Up(h, level), i / 2, k - 1)
  }

  lemma {:induction false} PathGrows(h: HashFunction, level: seq<Hash>, i: nat, k: nat, p: seq<Hash>, q: seq<Hash>)
    requires i < |level| && p == Path(h, level, i, k) && q == Path(h, level, i, k + 1)
    ensures q == p + [Passed(h, level, i, k)]
    decreases k
  {
    var first, up := [level[SiblingOf(|level|, i)]], Up(h, level);
    if k > 0 {
      var p', q' := Path(h, up, i / 2, k - 1), Path(h, up, i / 2, k);
      assert p == first + p' && q == first + q';
      PathGrows(h, up, i / 2, k - 1, p', q');
    }
  }

  lemma {:induction false} PassedIsLifted(h: HashFunction, level: seq<Hash>, i: nat, k: nat, next: seq<Hash>, j: nat)
    requires i < |level| && next == Lift(h, level, k) && j == Half(i, k) && j < |next|
    ensures Passed(h, level, i, k) == next[SiblingOf(|next|, j)]
    decreases k
  {
    if k > 0 {
      HalfShift(i, k - 1);
      LiftShift(h, level, k - 1);
      PassedIsLifted(h, Up(h, level), i / 2, k - 1, next, j);
    }
  }

  // ---------- Nodes ----------

  /** A hash.Hash: Sum hashes everything written since the last Reset. */
  class Hasher {
    const sum: HashFunction
    var written: seq<Byte>

    constructor (h: HashFunction)
      ensures sum == h && written == []
    {
      sum, written := h, [];
    }

    method Reset()
      modifies this
      ensures written == []
    {
      written := [];
    }

    method Write(data: seq<Byte>)
      modifies this
      ensures written == old(written) + data
    {
      written := written + data;
    }

    method Sum() returns (x: Hash)
      ensures x == sum(written)
    {
      x := sum(written);
    }
  }

  class MerkleNode {
    const left: MerkleNode?
    const right: MerkleNode?
    var parent: MerkleNode?
    const data: seq<Byte>
    const hash: Hash

    constructor (l: MerkleNode?, r: MerkleNode?, d: seq<Byte>, x: Hash)
      ensures left == l && right == r && data == d && hash == x && parent == null
    {
      left, right, data, hash, parent := l, r, d, x, null;
    }
  }

  method NewMerkleNode(left: MerkleNode?, right: MerkleNode?, data: seq<Byte>, hasher: Hasher)
    returns (node: MerkleNode)
    requires left == null <==> right == null
    modifies hasher
    ensures fresh(node) && node.parent == null && node.left == left && node.right == right && node.data == data
    ensures node.hash == hasher.sum(if left == null then data else Join(left.hash, right.hash))
  {
    var dataToHash := if left == null then data else Join(left.hash, right.hash);
    hasher.Reset();
    hasher.Write(dataToHash);
    assert hasher.written == dataToHash;
    var x := hasher.Sum();
    node := new MerkleNode(left, right, data, x);
  }

  ghost predicate Distinct(nodes: seq<MerkleNode>) {
    forall i, j :: 0 <= i < j < |nodes| ==> nodes[i] != nodes[j]
  }

  ghost predicate Hashes(nodes: seq<MerkleNode>, level: seq<Hash>) {
    |nodes| == |level| && forall i :: 0 <= i < |nodes| ==> nodes[i].hash == level[i]
  }

  /** `node` is the i-th inner node over `lower`. */
  ghost predicate IsOver(h: HashFunction, lower: seq<MerkleNode>, node: MerkleNode, i: nat)
    requires 2 * i < |lower|
  {
    && node.left == lower[2 * i] && node.right == lower[RightOf(|lower|, i)]
    && node.hash == h(Join(lower[2 * i].hash, lower[RightOf(|lower|, i)].hash))
  }

  ghost predicate Over(h: HashFunction, lower: seq<MerkleNode>, upper: seq<MerkleNode>) {
    2 * |upper| <= |lower| + 1 && forall j :: 0 <= j < |upper| ==> IsOver(h, lower, upper[j], j)
  }

  lemma {:induction false} OverGrows(h: HashFunction, lower: seq<MerkleNode>, upper: seq<MerkleNode>, node: MerkleNode)
    requires 2 * |upper| < |lower| && Over(h, lower, upper) && IsOver(h, lower, node, |upper|)
    ensures Over(h, lower, upper + [node])
  {}

  /** The children of `upper` in `lower` know their parents. */
  ghost predicate Under(lower: seq<MerkleNode>, upper: seq<MerkleNode>)
    reads lower
  {
    2 * |upper| <= |lower| + 1 &&
    forall j :: 0 <= j < |upper| ==> lower[2 * j].parent == upper[j] && lower[RightOf(|lower|, j)].parent == upper[j]
  }

  method JoinPair(nodes: seq<MerkleNode>, j: nat, hasher: Hasher) returns (parent: MerkleNode)
    requires 2 * j < |nodes|
    modifies {nodes[2 * j], nodes[RightOf(|nodes|, j)]}`parent, hasher
    ensures fresh(parent) && IsOver(hasher.sum, nodes, parent, j)
    ensures nodes[2 * j].parent == parent && nodes[RightOf(|nodes|, j)].parent == parent
  {
    var i := 2 * j;
    var left, right := nodes[i], nodes[i];
    if i + 1 < |nodes| {
      right := nodes[i + 1];
    }
    parent := NewMerkleNode(left, right, [], hasher);
    left.parent := parent;
    right.parent := parent;
  }

  /** One level of the tree on top of another; the last node of an odd level is joined with itself. */
  method BuildLevel(nodes: seq<MerkleNode>, hasher: Hasher) returns (newLevel: seq<MerkleNode>)
    requires Distinct(nodes)
    modifies (set n | n in nodes)`parent, hasher
    ensures |newLevel| == (|nodes| + 1) / 2 && Distinct(newLevel) && forall n :: n in newLevel ==> fresh(n)
    ensures Over(hasher.sum, nodes, newLevel) && Under(nodes, newLevel)
  {
    newLevel := [];
    while 2 * |newLevel| < |nodes|
      invariant Distinct(newLevel) && (forall n :: n in newLevel ==> fresh(n))
      invariant Over(hasher.sum, nodes, newLevel) && Under(nodes, newLevel)
    {
      var parent := JoinPair(nodes, |newLevel|, hasher);
      OverGrows(hasher.sum, nodes, newLevel, parent);
      newLevel := newLevel + [parent];
    }
  }

  // ---------- The tree ----------

  /** Each level stands on the one below it, down to the leaves; `below` holds every node but those of the top level. */
  ghost predicate Stacked(h: HashFunction, levels: seq<seq<MerkleNode>>, below: set<MerkleNode>)
    reads below
  {
    && |levels| > 0
    && (forall k, i :: 0 <= k < |levels| - 1 && 0 <= i < |levels[k]| ==> levels[k][i] in below)
    && (forall k :: 0 <= k < |levels| - 1 ==> StandsOn(h, levels[k], levels[k + 1]))
  }

  ghost predicate StandsOn(h: HashFunction, lower: seq<MerkleNode>, upper: seq<MerkleNode>)
    reads lower
  {
    |lower| > 1 && |upper| == (|lower| + 1) / 2 && Over(h, lower, upper) && Under(lower, upper)
  }

  ghost predicate Leaves(h: HashFunction, nodes: seq<MerkleNode>, data: seq<seq<Byte>>) {
    |nodes| == |data| && forall i :: 0 <= i < |data| ==> nodes[i].data == data[i] && nodes[i].hash == h(data[i])
  }

  method NewLeaves(data: seq<seq<Byte>>, hasher: Hasher) returns (nodes: seq<MerkleNode>)
    modifies hasher
    ensures Leaves(hasher.sum, nodes, data) && Distinct(nodes) && forall n :: n in nodes ==> fresh(n)
  {
    nodes := [];
    for i := 0 to |data|
      invariant Leaves(hasher.sum, nodes, data[..i]) && Distinct(nodes) && forall n :: n in nodes ==> fresh(n)
    {
      var leaf := NewMerkleNode(null, null, data[i], hasher);
      nodes := nodes + [leaf];
    }
  }

  /** The loop that builds level upon level until one node is left. */
  method BuildLevels(leaves: seq<MerkleNode>, hasher: Hasher)
    returns (nodes: seq<MerkleNode>, ghost levels: seq<seq<MerkleNode>>, ghost below: set<MerkleNode>)
    requires Distinct(leaves) && leaves != []
    modifies (set n | n in leaves)`parent, hasher
    ensures Stacked(hasher.sum, levels, below) && levels[0] == leaves && levels[|levels| - 1] == nodes && |nodes| == 1
  {
    nodes, levels, below := leaves, [leaves], {};
    while |nodes| > 1
      invariant Stacked(hasher.sum, levels, below) && levels[0] == leaves && levels[|levels| - 1] == nodes
      invariant |nodes| > 0 && Distinct(nodes) && (forall n :: n in nodes ==> n !in below)
      invariant forall n :: n in nodes ==> n in leaves || fresh(n)
      invariant forall n :: n in below ==> n in leaves || fresh(n)
      decreases |nodes|
    {
      var newLevel := BuildLevel(nodes, hasher);
      levels, below := levels + [newLevel], below + set n | n in nodes;
      nodes := newLevel;
    }
  }

  ghost function HashesOf(h: HashFunction, data: seq<seq<Byte>>): (r: seq<Hash>)
    ensures |r| == |data| && forall i :: 0 <= i < |data| ==> r[i] == h(data[i])
  {
    seq<Hash>(|data|, i requires 0 <= i < |data| => h(data[i]))
  }

  /** The hash of the tree over `data`. */
  ghost function RootOf(h: HashFunction, data: seq<seq<Byte>>): Hash
    requires data != []
  {
    LiftSize(h, HashesOf(h, data));
    Lift(h, HashesOf(h, data), Depth(|data|))[0]
  }

  lemma {:induction false} LiftSize(h: HashFunction, level: seq<Hash>)
    requires level != []
    ensures |Lift(h, level, Depth(|level|))| == 1
    decreases |level|
  {
    if |level| > 1 {
      LiftSize(h, Up(h, level));
      LiftShift(h, level, Depth(|level|) - 1);
    }
  }

  /** The hashes of the k-th level are those of the leaves lifted k times. */
  lemma {:induction false} LevelHashes(h: HashFunction, levels: seq<seq<MerkleNode>>, below: set<MerkleNode>,
                                       leaves: seq<Hash>, k: nat)
    requires Stacked(h, levels, below) && Hashes(levels[0], leaves) && k < |levels|
    ensures Hashes(levels[k], Lift(h, leaves, k))
    decreases k
  {
    if k > 0 {
      LevelHashes(h, levels, below, leaves, k - 1);
      assert StandsOn(h, levels[k - 1], levels[k]);
      forall j | 0 <= j < |levels[k]| ensures levels[k][j].hash == Lift(h, leaves, k)[j] {
        assert IsOver(h, levels[k - 1], levels[k][j], j);
      }
    }
  }

  lemma {:induction false} LevelSizes(h: HashFunction, levels: seq<seq<MerkleNode>>, below: set<MerkleNode>, k: nat)
    requires Stacked(h, levels, below) && k < |levels| && |levels[|levels| - 1]| == 1
    ensures Depth(|levels[k]|) == |levels| - 1 - k
    decreases |levels| - k
  {
    if k < |levels| - 1 {
      assert StandsOn(h, levels[k], levels[k + 1]);
      LevelSizes(h, levels, below, k + 1);
    }
  }

  class MerkleTree {
    const rootNode: MerkleNode
    const leafNodes: seq<MerkleNode>
    ghost const h: HashFunction
    ghost const data: seq<seq<Byte>>
    ghost const levels: seq<seq<MerkleNode>>
    ghost const below: set<MerkleNode>

    ghost predicate Valid()
      reads this, below
    {
      && Stacked(h, levels, below) && levels[0] == leafNodes && levels[|levels| - 1] == [rootNode]
      && Leaves(h, leafNodes, data) && data != []
    }

    constructor (hash: HashFunction, root: MerkleNode, leaves: seq<MerkleNode>,
                 ghost d: seq<seq<Byte>>, ghost ls: seq<seq<MerkleNode>>, ghost bs: set<MerkleNode>)
      requires Stacked(hash, ls, bs) && ls[0] == leaves && ls[|ls| - 1] == [root] && Leaves(hash, leaves, d) && d != []
      ensures Valid() && h == hash && data == d && rootNode.hash == RootOf(h, data)
    {
      h, rootNode, leafNodes, data, levels, below := hash, root, leaves, d, ls, bs;
      new;
      RootHash();
    }

    lemma {:induction false} RootHash()
      requires Valid()
      ensures rootNode.hash == RootOf(h, data) && |levels| - 1 == Depth(|data|)
    {
      assert Hashes(levels[0], HashesOf(h, data));
      LevelHashes(h, levels, below, HashesOf(h, data), |levels| - 1);
      LevelSizes(h, levels, below, 0);
    }

    /** LeafIndex: the first position of the leaf. */
    method LeafIndex(leaf: seq<Byte>) returns (index: Result<nat>)
      requires Valid()
      ensures if leaf in data then index.Ok? && First(data, leaf, index.value) else index.Error?
    {
      for i := 0 to |leafNodes|
        invariant forall j :: 0 <= j < i ==> data[j] != leaf
      {
        if leafNodes[i].data == leaf {
          return Ok(i);
        }
      }
      index := Error("leaf not found");
    }

    method FindLeafNode(leaf: seq<Byte>) returns (node: MerkleNode?, ghost i: nat)
      requires Valid()
      ensures if leaf in data then First(data, leaf, i) && node == leafNodes[i] else node == null
    {
      i := 0;
      for n := 0 to |leafNodes|
        invariant forall j :: 0 <= j < n ==> data[j] != leaf
      {
        if leafNodes[n].data == leaf {
          return leafNodes[n], n;
        }
      }
      node := null;
    }

    /** One step to the parent, noting the hash on the other side: comparing hashes finds the right one even when both
        children have the same hash. */
    method ToParent(node: MerkleNode, ghost k: nat, ghost j: nat) returns (parent: MerkleNode, sibling: Hash)
      requires Valid() && k < |levels| - 1 && j < |levels[k]| && node == levels[k][j]
      ensures j / 2 < |levels[k + 1]| && parent == levels[k + 1][j / 2]
      ensures sibling == levels[k][SiblingOf(|levels[k]|, j)].hash
    {
      assert StandsOn(h, levels[k], levels[k + 1]) && IsOver(h, levels[k], levels[k + 1][j / 2], j / 2);
      assert j == if j % 2 == 0 then 2 * (j / 2) else RightOf(|levels[k]|, j / 2);
      parent := node.parent;
      sibling := if parent.left.hash == node.hash then parent.right.hash else parent.left.hash;
    }

    /** Where the walk from leaf i is after k steps. */
    ghost predicate OnWay(i: nat, k: nat, node: MerkleNode, proof: seq<Hash>)
      reads this, below
      requires Valid() && i < |data|
    {
      var hs := HashesOf(h, data);
      && k < |levels| && Half(i, k) < |levels[k]| && node == levels[k][Half(i, k)]
      && node.hash == Above(h, hs, i, k) && proof == Path(h, hs, i, k)
    }

    lemma {:induction false} OnWayUp(i: nat, k: nat, node: MerkleNode, proof: seq<Hash>, parent: MerkleNode,
                                     sibling: Hash)
      requires Valid() && i < |data| && OnWay(i, k, node, proof) && k < |levels| - 1
      requires Half(i, k) / 2 < |levels[k + 1]| && parent == levels[k + 1][Half(i, k) / 2]
      requires sibling == levels[k][SiblingOf(|levels[k]|, Half(i, k))].hash
      ensures OnWay(i, k + 1, parent, proof + [sibling])
    {
      var hs := HashesOf(h, data);
      assert Hashes(levels[0], hs);
      LevelHashes(h, levels, below, hs, k);
      LevelHashes(h, levels, below, hs, k + 1);
      AboveIsLift(h, hs, i, k + 1);
      PathGrows(h, hs, i, k, Path(h, hs, i, k), Path(h, hs, i, k + 1));
      PassedIsLifted(h, hs, i, k, Lift(h, hs, k), Half(i, k));
    }

    method StepUp(node: MerkleNode, siblings: seq<Hash>, ghost i: nat, ghost k: nat)
      returns (parent: MerkleNode, siblings': seq<Hash>)
      requires Valid() && i < |data| && OnWay(i, k, node, siblings) && node.hash != rootNode.hash
      ensures OnWay(i, k + 1, parent, siblings')
    {
      var sibling;
      parent, sibling := ToParent(node, k, Half(i, k));
      OnWayUp(i, k, node, siblings, parent, sibling);
      siblings' := siblings + [sibling];
    }

    /** GenerateProof: the siblings of the first such leaf up to the first node that has the root's hash. */
    method GenerateProof(leaf: seq<Byte>) returns (proof: Result<seq<Hash>>, ghost i: nat, ghost k: nat)
      requires Valid()
      ensures proof.Error? <==> leaf !in data
      ensures proof.Ok? ==>
                First(data, leaf, i) && StopsAt(h, data, i, k) && proof.value == Path(h, HashesOf(h, data), i, k)
    {
      k := 0;
      var node;
      node, i := FindLeafNode(leaf);
      if node == null {
        return Error("given data not in merkle tree"), i, k;
      }
      RootHash();
      var siblings: seq<Hash> := [];
      while node.hash != rootNode.hash
        invariant node != null && OnWay(i, k, node, siblings) && Unlike(h, HashesOf(h, data), i, k, RootOf(h, data))
        decreases |levels| - k
      {
        node, siblings := StepUp(node, siblings, i, k);
        k := k + 1;
      }
      proof := Ok(siblings);
    }
  }

  ghost predicate First(data: seq<seq<Byte>>, leaf: seq<Byte>, i: nat) {
    i < |data| && data[i] == leaf && forall j :: 0 <= j < i ==> data[j] != leaf
  }

  /** k is the number of levels from leaf i up to the first hash that equals the root's. */
  ghost predicate StopsAt(h: HashFunction, data: seq<seq<Byte>>, i: nat, k: nat)
    requires i < |data|
  {
    && k <= Depth(|data|) && Above(h, HashesOf(h, data), i, k) == RootOf(h, data)
    && Unlike(h, HashesOf(h, data), i, k, RootOf(h, data))
  }

  /** No hash on the first k levels above node i is `root`. */
  ghost predicate Unlike(h: HashFunction, level: seq<Hash>, i: nat, k: nat, root: Hash)
    requires i < |level|
  {
    forall m :: 0 <= m < k ==> Above(h, level, i, m) != root
  }

  method NewMerkleTreeWithHashing(data: seq<seq<Byte>>, hasher: Hasher) returns (tree: Result<MerkleTree>)
    modifies hasher
    ensures tree.Error? <==> data == []
    ensures tree.Ok? ==>
              fresh(tree.value) && tree.value.Valid() && tree.value.data == data && tree.value.h == hasher.sum
    ensures tree.Ok? ==> tree.value.rootNode.hash == RootOf(hasher.sum, data)
  {
    if |data| == 0 {
      return Error("tree must contain at least one leaf");
    }
    var leaves := NewLeaves(data, hasher);
    var nodes;
    ghost var levels, below;
    nodes, levels, below := BuildLevels(leaves, hasher);
    var t := new MerkleTree(hasher.sum, nodes[0], leaves, data, levels, below);
    tree := Ok(t);
  }

  // ---------- Verification ----------

  const I64: nat := 0x8000_0000_0000_0000

  type Index = i: nat | i < 2 * I64

  /** int(index): the two's complement reading of an unsigned index. */
  function ToInt(index: Index): int {
    if index < I64 then index else index - 2 * I64
  }

  /** int(math.Pow(2, k)); from 2^63 on the conversion is up to the platform, which answers `large`. */
  function Bound(k: nat, large: int): int {
    if k < 63 then Pow2(k) else large
  }

  /** getProofHash; the hasher is not reset before the leaf is written to it. */
  method GetProofHash(index: Index, leaf: seq<Byte>, proof: seq<Hash>, hasher: Hasher) returns (computed: Hash)
    modifies hasher
    ensures computed == Climb(hasher.sum, hasher.sum(old(hasher.written) + leaf), proof, index)
  {
    hasher.Write(leaf);
    computed := hasher.Sum();
    ghost var target := Climb(hasher.sum, computed, proof, index);
    var idx: nat := index;
    for i := 0 to |proof|
      invariant Climb(hasher.sum, computed, proof[i..], idx) == target
    {
      computed := CombineUsing(computed, proof[i], idx, hasher);
      assert proof[i..][1..] == proof[i + 1..];
      idx := idx / 2;
    }
    assert proof[|proof|..] == [];
  }

  method CombineUsing(x: Hash, sibling: Hash, index: nat, hasher: Hasher) returns (computed: Hash)
    modifies hasher
    ensures computed == Combine(hasher.sum, x, sibling, index)
  {
    hasher.Reset();
    if index % 2 == 0 {
      hasher.Write(x);
      hasher.Write(sibling);
      assert hasher.written == Join(x, sibling);
    } else {
      hasher.Write(sibling);
      hasher.Write(x);
      assert hasher.written == Join(sibling, x);
    }
    computed := hasher.Sum();
  }

  /** What VerifyProofUsing accepts with a hasher to which `written` has been written. */
  ghost predicate Accepts(h: HashFunction, written: seq<Byte>, index: Index, leaf: seq<Byte>, proof: seq<Hash>,
                          root: Hash, large: int) {
    leaf != [] && ToInt(index) < Bound(|proof|, large) && Climb(h, h(written + leaf), proof, index) == root
  }

  /** VerifyProofUsing, by any hasher in any state. */
  method VerifyProofUsing(index: Index, leaf: seq<Byte>, proof: seq<Hash>, root: Hash, hasher: Hasher, large: int)
    returns (ok: bool)
    modifies hasher
    ensures ok <==> Accepts(hasher.sum, old(hasher.written), index, leaf, proof, root, large)
  {
    if |leaf| == 0 || ToInt(index) >= Bound(|proof|, large) {
      return false;
    }
    var computed := GetProofHash(index, leaf, proof, hasher);
    ok := root == computed;
  }

  lemma {:induction false} Pow2Grows(j: nat, k: nat)
    requires j <= k
    ensures Pow2(j) <= Pow2(k)
    decreases k
  {
    if j < k { Pow2Grows(j, k - 1); }
  }

  lemma {:induction false} DepthIsLow(n: nat, k: nat)
    requires 0 < n <= Pow2(k)
    ensures Depth(n) <= k
  {
    DepthIsCeilLog(n);
    if Depth(n) > k { Pow2Grows(k, Depth(n) - 1); }
  }

  /** The proof collected from leaf i leads the verifier to the root. */
  lemma {:induction false} GeneratedAccepted(
      h: HashFunction, data: seq<seq<Byte>>, leaf: seq<Byte>, i: nat, k: nat, proof: seq<Hash>, large: int)
    requires First(data, leaf, i) && StopsAt(h, data, i, k) && proof == Path(h, HashesOf(h, data), i, k) &&
             |data| <= Pow2(62)
    ensures |proof| == k && Climb(h, h([] + leaf), proof, i) == RootOf(h, data)
    ensures i < I64 && Bound(k, large) == Pow2(k) && (k == Depth(|data|) ==> i < Pow2(k))
  {
    assert [] + leaf == leaf;
    ClimbReachesAbove(h, HashesOf(h, data), i, k);
    DepthIsLow(|data|, 62);
    DepthIsCeilLog(|data|);
    BelowI64(|data|);
  }

  /** The tree over the leaves, the proof of a leaf and its index. */
  method Prove(h: HashFunction, data: seq<seq<Byte>>, leaf: seq<Byte>) returns (root: Hash, proof: seq<Hash>, i: nat)
    requires leaf in data
    ensures root == RootOf(h, data) && First(data, leaf, i)
    ensures StopsAt(h, data, i, |proof|) && proof == Path(h, HashesOf(h, data), i, |proof|)
  {
    var hasher := new Hasher(h);
    var tree := NewMerkleTreeWithHashing(data, hasher);
    ghost var at, k;
    var generated;
    generated, at, k := tree.value.GenerateProof(leaf);
    var index := tree.value.LeafIndex(leaf);
    root, proof, i := tree.value.rootNode.hash, generated.value, index.value;
    assert i == at;
    ClimbReachesAbove(h, HashesOf(h, data), i, k);
  }

  /** Completeness, for every list of leaves that fits in memory: the generated proof of a nonempty leaf is accepted at
      its index exactly when the index has no more bits than the proof has hashes; and if no hash on the way equals
      the root's, the proof has the full length and is accepted. */
  method ProveAndVerify(h: HashFunction, data: seq<seq<Byte>>, leaf: seq<Byte>, large: int)
    returns (proof: seq<Hash>, i: nat, ok: bool)
    requires leaf in data && |data| <= Pow2(62)
    ensures First(data, leaf, i) && StopsAt(h, data, i, |proof|) && proof == Path(h, HashesOf(h, data), i, |proof|)
    ensures i < 2 * I64 && ok == Accepts(h, [], i, leaf, proof, RootOf(h, data), large)
    ensures ok <==> leaf != [] && i < Pow2(|proof|)
    ensures (forall m :: 0 <= m < Depth(|data|) ==> Above(h, HashesOf(h, data), i, m) != RootOf(h, data)) ==>
              |proof| == Depth(|data|) && (ok <==> leaf != [])
  {
    var root;
    root, proof, i := Prove(h, data, leaf);
    GeneratedAccepted(h, data, leaf, i, |proof|, proof, large);
    var verifier := new Hasher(h);
    ok := VerifyProofUsing(i, leaf, proof, root, verifier, large);
  }

  /** A hash function under which a leaf has the root's hash: its generated proof is empty, and rejected at index 1. */
  method EarlyStopRejected(zero: Hash, large: int)
    returns (h: HashFunction, data: seq<seq<Byte>>, proof: seq<Hash>, ok: bool)
    ensures (forall x :: h(x) == zero) && data == [[1], [2]] && proof == []
    ensures First(data, [2], 1) && StopsAt(h, data, 1, 0) && proof == Path(h, HashesOf(h, data), 1, 0)
    ensures ok == Accepts(h, [], 1, [2], proof, RootOf(h, data), large) && !ok
  {
    h, data := _ => zero, [[1], [2]];
    assert Above(h, HashesOf(h, data), 1, 0) == zero == RootOf(h, data) by {
      LiftSize(h, HashesOf(h, data));
    }
    var i;
    proof, i, ok := ProveAndVerify(h, data, data[1], large);
  }

  lemma {:induction false} BelowI64(n: nat)
    requires n <= Pow2(62)
    ensures n < I64
  {
    Power62();
  }

  lemma {:induction false} Power62()
    ensures Pow2(62) == 0x4000_0000_0000_0000
  {
    Power31();
    Pow2Adds(31, 31);
  }

  lemma {:induction false} Power31()
    ensures Pow2(31) == 0x8000_0000
  {
    assert Pow2(4) == 16;
    assert Pow2(8) == 256 by { Pow2Adds(4, 4); }
    assert Pow2(16) == 0x1_0000 by { Pow2Adds(8, 8); }
    assert Pow2(7) == 128;
    assert Pow2(15) == 0x8000 by { Pow2Adds(8, 7); }
    Pow2Adds(16, 15);
  }

  lemma {:induction false} Pow2Adds(j: nat, k: nat)
    ensures Pow2(j + k) == Pow2(j) * Pow2(k)
    decreases k
  {
    if k > 0 { Pow2Adds(j, k - 1); }
  }
}
