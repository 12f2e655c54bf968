/** The client's Merkle path over the sparse deposit tree, and the circuit that checks it. */
module MerklePath {
  import opened Base

  const MERKLE_DEPTH: nat := 20

  /** Poseidon over two inputs, as an uninterpreted function. */
  type Hash2 = (int, int) -> int

  // ---- The tree -------------------------------------------------------------------------

  /** Root of a full tree given by its 2^height leaves. */
  function TreeRoot(hash: Hash2, leaves: seq<int>, height: nat): int
    requires |leaves| == Pow(2, height)
    decreases height
  {
    if height == 0 then leaves[0]
    else
      var half := Pow(2, height - 1);
      hash(TreeRoot(hash, leaves[..half], height - 1), TreeRoot(hash, leaves[half..], height - 1))
  }

  /** Left child first. */
  lemma TreeOfFour(hash: Hash2, a: int, b: int, c: int, d: int)
    ensures Pow(2, 2) == 4 && TreeRoot(hash, [a, b, c, d], 2) == hash(hash(a, b), hash(c, d))
  {
    assert Pow(2, 1) == 2 && Pow(2, 0) == 1;
    var leaves := [a, b, c, d];
    assert leaves[..2] == [a, b] && leaves[2..] == [c, d];
    assert [a, b][..1] == [a] && [a, b][1..] == [b] && [c, d][..1] == [c] && [c, d][1..] == [d];
  }

  function ZeroLeaves(height: nat): seq<int> {
    seq(Pow(2, height), _ => 0)
  }

  /** All leaves zero except one. */
  function OneLeaf(height: nat, index: int, leaf: int): seq<int> {
    seq(Pow(2, height), i => if i == index then leaf else 0)
  }

  function ZeroRoot(hash: Hash2, height: nat): int {
    if height == 0 then 0 else hash(ZeroRoot(hash, height - 1), ZeroRoot(hash, height - 1))
  }

  lemma TreeRootOfHalves(hash: Hash2, left: seq<int>, right: seq<int>, height: nat)
    requires |left| == |right| == Pow(2, height)
    ensures |left + right| == Pow(2, height + 1)
    ensures TreeRoot(hash, left + right, height + 1) == hash(TreeRoot(hash, left, height), TreeRoot(hash, right, height))
  {
    assert (left + right)[..|left|] == left && (left + right)[|left|..] == right;
  }

  lemma {:induction false} ZeroRootIsTreeRoot(hash: Hash2, height: nat)
    ensures TreeRoot(hash, ZeroLeaves(height), height) == ZeroRoot(hash, height)
  {
    if height > 0 {
      var below := ZeroLeaves(height - 1);
      assert ZeroLeaves(height) == below + below;
      TreeRootOfHalves(hash, below, below, height - 1);
      ZeroRootIsTreeRoot(hash, height - 1);
    }
  }

  lemma OneLeafHalves(height: nat, index: int, leaf: int)
    requires 0 <= index < Pow(2, height)
    ensures OneLeaf(height + 1, index, leaf) == OneLeaf(height, index, leaf) + ZeroLeaves(height)
    ensures OneLeaf(height + 1, Pow(2, height) + index, leaf) == ZeroLeaves(height) + OneLeaf(height, index, leaf)
  {
    assert Pow(2, height + 1) == Pow(2, height) + Pow(2, height);
  }

  /** One level up, the sibling of the subtree that holds the leaf is all zero. */
  lemma OneLeafUp(hash: Hash2, height: nat, index: nat, bit: int, leaf: int)
    requires index < Pow(2, height)
    ensures var below := TreeRoot(hash, OneLeaf(height, index, leaf), height);
      TreeRoot(hash, OneLeaf(height + 1, Weight(bit, height) + index, leaf), height + 1)
        == if bit == 0 then hash(below, ZeroRoot(hash, height)) else hash(ZeroRoot(hash, height), below)
  {
    var one, zeros, up := OneLeaf(height, index, leaf), ZeroLeaves(height), OneLeaf(height + 1, Weight(bit, height) + index, leaf);
    ZeroRootIsTreeRoot(hash, height);
    var left, right := if bit == 0 then one else zeros, if bit == 0 then zeros else one;
    assert up == left + right by { OneLeafHalves(height, index, leaf); }
    TreeRootOfHalves(hash, left, right, height);
  }

  /** What a path bit contributes to a position. */
  function Weight(bit: int, level: nat): nat {
    if bit == 0 then 0 else Pow(2, level)
  }

  // ---- The client -------------------------------------------------------------------------

  method ComputeZeros(hash: Hash2, depth: nat) returns (zeros: seq<int>)
    ensures |zeros| == depth + 1
    ensures forall i :: 0 <= i <= depth ==> zeros[i] == ZeroRoot(hash, i)
    ensures zeros[0] == 0 && forall i :: 0 < i <= depth ==> zeros[i] == hash(zeros[i - 1], zeros[i - 1])
  {
    zeros := [0];
    for i := 1 to depth + 1
      invariant |zeros| == i
      invariant forall k :: 0 <= k < i ==> zeros[k] == ZeroRoot(hash, k)
    {
      zeros := zeros + [hash(zeros[i - 1], zeros[i - 1])];
    }
  }

  /** Conversion of a number to a signed 32-bit integer, which `&` and `>>` apply first. */
  function ToInt32(x: int): int {
    var m := x % 0x1_0000_0000;
    if m >= 0x8000_0000 then m - 0x1_0000_0000 else m
  }

  lemma SplitBit(t: int, p: nat)
    requires p > 0
    ensures t == t / p / 2 * (2 * p) + t / p % 2 * p + t % p
    ensures t / p % 2 * p == if t / p % 2 == 0 then 0 else p
  {
    var q, b := t / p / 2, t / p % 2;
    assert t / p == q * 2 + b;
    assert (q * 2 + b) * p == q * (2 * p) + b * p;
  }

  /** The low bit of an integer and the rest, one level at a time. */
  lemma NextBit(t: int, level: nat)
    ensures Pow(2, level) > 0
    ensures t % Pow(2, level + 1) == Weight((t / Pow(2, level)) % 2, level) + t % Pow(2, level)
    ensures t / Pow(2, level + 1) == (t / Pow(2, level)) / 2
  {
    var p := Pow(2, level);
    assert Pow(2, level + 1) == 2 * p;
    hide Pow;
    SplitBit(t, p);
    DivModUnique(t, 2 * p, t / p / 2, Weight(t / p % 2, level) + t % p);
  }

  lemma TwoTo32()
    ensures Pow(2, 32) == 0x1_0000_0000
  {
    assert Pow(2, 4) == 16;
    PowAdd(2, 4, 4);
    PowAdd(2, 8, 8);
    PowAdd(2, 16, 16);
  }

  lemma WrapKeepsResidue(x: nat, p: nat, k: nat)
    requires x < 0x1_0000_0000 && p > 0 && k * p == 0x1_0000_0000
    ensures ToInt32(x) % p == x % p
  {
    ModShift(x, p, k);
  }

  /** The tree position of a leaf index is its residue: the wrap to 32 signed bits does not show. */
  lemma WrapKeepsPosition(leafIndex: nat, depth: nat)
    requires leafIndex < 0x1_0000_0000 && depth <= 32
    ensures ToInt32(leafIndex) % Pow(2, depth) == leafIndex % Pow(2, depth)
  {
    var rest: nat := 32 - depth;
    PowAdd(2, rest, depth);
    TwoTo32();
    WrapKeepsResidue(leafIndex, Pow(2, depth), Pow(2, rest));
  }

  /** Position spelled by path bits, least significant first. */
  function Position(bits: seq<int>): nat {
    if bits == [] then 0
    else
      var last := |bits| - 1;
      Position(bits[..last]) + Weight(bits[last], last)
  }

  lemma PositionUp(bits: seq<int>, bit: int)
    ensures Position(bits + [bit]) == Position(bits) + Weight(bit, |bits|)
  {
    assert (bits + [bit])[..|bits|] == bits;
  }

  function Bits(t: int, levels: nat): seq<int> {
    seq(levels, l requires 0 <= l < levels => (t / Pow(2, l)) % 2)
  }

  lemma {:induction false} PositionOfBits(t: int, levels: nat)
    ensures Position(Bits(t, levels)) == t % Pow(2, levels)
  {
    if levels == 0 {
      assert Bits(t, 0) == [];
    } else {
      var bit := (t / Pow(2, levels - 1)) % 2;
      NextBits(t, levels - 1);
      PositionUp(Bits(t, levels - 1), bit);
      PositionOfBits(t, levels - 1);
      NextBit(t, levels - 1);
    }
  }

  /** After `level` rounds of the loop that started with the 32-bit index `t`. */
  ghost predicate Climbed(hash: Hash2, leaf: int, t: int, level: nat, elements: seq<int>, indices: seq<int>, current: int) {
    && |elements| == |indices| == level
    && elements == ZeroRoots(hash, level)
    && indices == Bits(t, level)
    && current == TreeRoot(hash, OneLeaf(level, t % Pow(2, level), leaf), level)
    && current == PathRoot(hash, leaf, elements, indices)
  }

  function ZeroRoots(hash: Hash2, levels: nat): seq<int> {
    seq(levels, l requires 0 <= l < levels => ZeroRoot(hash, l))
  }

  lemma NextZero(hash: Hash2, level: nat)
    ensures ZeroRoots(hash, level + 1) == ZeroRoots(hash, level) + [ZeroRoot(hash, level)]
  {
  }

  lemma ClimbOne(hash: Hash2, leaf: int, t: int, level: nat, elements: seq<int>, indices: seq<int>, current: int)
    requires Climbed(hash, leaf, t, level, elements, indices, current)
    ensures var bit := (t / Pow(2, level)) % 2; var zero := ZeroRoot(hash, level);
      Climbed(hash, leaf, t, level + 1, elements + [zero], indices + [bit],
              if bit == 0 then hash(current, zero) else hash(zero, current))
  {
    TreeUp(hash, leaf, t, level);
    NextBits(t, level);
    NextZero(hash, level);
    PathRootUp(hash, leaf, elements, indices, ZeroRoot(hash, level), (t / Pow(2, level)) % 2);
  }

  lemma TreeUp(hash: Hash2, leaf: int, t: int, level: nat)
    ensures var below := TreeRoot(hash, OneLeaf(level, t % Pow(2, level), leaf), level);
      TreeRoot(hash, OneLeaf(level + 1, t % Pow(2, level + 1), leaf), level + 1)
        == if (t / Pow(2, level)) % 2 == 0 then hash(below, ZeroRoot(hash, level)) else hash(ZeroRoot(hash, level), below)
  {
    NextBit(t, level);
    OneLeafUp(hash, level, t % Pow(2, level), (t / Pow(2, level)) % 2, leaf);
  }

  lemma ClimbStart(hash: Hash2, leaf: int, t: int)
    ensures Climbed(hash, leaf, t, 0, [], [], leaf) && t / Pow(2, 0) == t
  {
    DivModUnique(t, 1, t, 0);
  }

  lemma IntHalves(x: int, t: int, level: nat)
    requires ToInt32(x) == t / Pow(2, level)
    ensures ToInt32(ToInt32(x) / 2) == t / Pow(2, level + 1)
  {
    NextBit(t, level);
    Int32Halves(x);
  }

  /** What is known when the loop is done. */
  lemma ClimbEnd(hash: Hash2, leaf: int, leafIndex: nat, depth: nat, elements: seq<int>, indices: seq<int>, current: int)
    requires leafIndex < 0x1_0000_0000 && depth <= 32
    requires Climbed(hash, leaf, ToInt32(leafIndex), depth, elements, indices, current)
    ensures |elements| == |indices| == depth && current == PathRoot(hash, leaf, elements, indices)
    ensures forall l :: 0 <= l < depth ==> elements[l] == ZeroRoot(hash, l) && 0 <= indices[l] <= 1
    ensures Position(indices) == leafIndex % Pow(2, depth)
    ensures current == TreeRoot(hash, OneLeaf(depth, leafIndex % Pow(2, depth), leaf), depth)
  {
    PositionOfBits(ToInt32(leafIndex), depth);
    WrapKeepsPosition(leafIndex, depth);
  }

  /** The source fixes `depth` to MERKLE_DEPTH. The leaf index it reads from an account is any
      unsigned 32-bit number. */
  method ComputeMerklePath(hash: Hash2, depth: nat, leafCommitment: int, leafIndex: nat)
    returns (pathElements: seq<int>, pathIndices: seq<int>, root: int)
    requires leafIndex < 0x1_0000_0000 && depth <= 32
    ensures |pathElements| == |pathIndices| == depth
    ensures forall l :: 0 <= l < depth ==> pathElements[l] == ZeroRoot(hash, l) && 0 <= pathIndices[l] <= 1
    ensures Position(pathIndices) == leafIndex % Pow(2, depth)
    ensures root == TreeRoot(hash, OneLeaf(depth, leafIndex % Pow(2, depth), leafCommitment), depth)
    ensures root == PathRoot(hash, leafCommitment, pathElements, pathIndices)
  {
    hide TreeRoot, PathRoot, OneLeaf, ZeroRoot, Climbed, ToInt32, Pow;
    var zeros := ComputeZeros(hash, depth);
    pathElements, pathIndices := [], [];
    var currentHash := leafCommitment;
    var idx: int := leafIndex;
    ghost var t := ToInt32(leafIndex);
    ClimbStart(hash, leafCommitment, t);
    for level := 0 to depth
      invariant ToInt32(idx) == t / Pow(2, level)
      invariant Climbed(hash, leafCommitment, t, level, pathElements, pathIndices, currentHash)
    {
      ClimbOne(hash, leafCommitment, t, level, pathElements, pathIndices, currentHash);
      IntHalves(idx, t, level);
      var zero, bit := zeros[level], ToInt32(idx) % 2;
      pathElements := pathElements + [zero];
      pathIndices := pathIndices + [bit];
      if bit == 0 {
        currentHash := hash(currentHash, zero);
      } else {
        currentHash := hash(zero, currentHash);
      }
      idx := ToInt32(idx) / 2;
    }
    root := currentHash;
    ClimbEnd(hash, leafCommitment, leafIndex, depth, pathElements, pathIndices, root);
  }

  lemma LeavesOfTree()
    ensures Pow(2, MERKLE_DEPTH) == 1_048_576
  {
    assert Pow(2, 5) == 32;
    PowAdd(2, 5, 5);
    PowAdd(2, 10, 10);
  }

  /** The client's own path, in a tree of 1048576 leaves. */
  method ClientMerklePath(hash: Hash2, leafCommitment: int, leafIndex: nat)
    returns (pathElements: seq<int>, pathIndices: seq<int>, root: int)
    requires leafIndex < 0x1_0000_0000
    ensures |pathElements| == |pathIndices| == 20 && Position(pathIndices) == leafIndex % 1_048_576
    ensures root == TreeRoot(hash, OneLeaf(MERKLE_DEPTH, leafIndex % 1_048_576, leafCommitment), MERKLE_DEPTH)
  {
    hide TreeRoot;
    LeavesOfTree();
    pathElements, pathIndices, root := ComputeMerklePath(hash, MERKLE_DEPTH, leafCommitment, leafIndex);
  }

  lemma NextBits(t: int, level: nat)
    ensures Bits(t, level + 1) == Bits(t, level) + [(t / Pow(2, level)) % 2]
  {
  }

  lemma Int32Halves(x: int)
    ensures ToInt32(ToInt32(x) / 2) == ToInt32(x) / 2
  {
    var h := ToInt32(x) / 2;
    assert -0x8000_0000 <= h < 0x8000_0000;
    if h < 0 {
      assert h % 0x1_0000_0000 == h + 0x1_0000_0000;
    }
  }

  // ---- The circuit ---------------------------------------------------------------------------

  /** The MerkleProof template: the path root, deepest level first. Any non-zero index counts
      as one, as the template's IsZero does. */
  function PathRoot(hash: Hash2, leaf: int, elements: seq<int>, indices: seq<int>): int
    requires |elements| == |indices|
  {
    if elements == [] then leaf
    else
      var i := |elements| - 1;
      var below := PathRoot(hash, leaf, elements[..i], indices[..i]);
      hash(Select(below, elements[i], indices[i]), Select(elements[i], below, indices[i]))
  }

  /** a + (b - a) * (1 - isZero(index)), the template's selection. */
  function Select(a: int, b: int, index: int): (r: int)
    ensures r == if index == 0 then a else b
  {
    if index == 0 then a + (b - a) * (1 - 1) else a + (b - a) * (1 - 0)
  }

  /** One level of the circuit: the sibling is hashed second for index 0 and first for any other. */
  lemma CircuitLevel(hash: Hash2, leaf: int, sibling: int, index: int)
    ensures PathRoot(hash, leaf, [sibling], [index]) == if index == 0 then hash(leaf, sibling) else hash(sibling, leaf)
  {
    assert PathRoot(hash, leaf, [], []) == leaf;
  }

  lemma PathRootUp(hash: Hash2, leaf: int, elements: seq<int>, indices: seq<int>, element: int, index: int)
    requires |elements| == |indices|
    ensures var below := PathRoot(hash, leaf, elements, indices);
      PathRoot(hash, leaf, elements + [element], indices + [index])
        == if index == 0 then hash(below, element) else hash(element, below)
  {
    assert (elements + [element])[..|elements|] == elements && (indices + [index])[..|indices|] == indices;
  }

  // ---- Binding ---------------------------------------------------------------------------------
  //
  // A hash into a field has collisions. Binding therefore assumes none between the pairs that the
  // argument compares, and names those pairs.

  /** The hash tells the two pairs apart, if they differ at all. */
  predicate NoCollision(hash: Hash2, a: int, b: int, c: int, d: int) {
    hash(a, b) == hash(c, d) ==> a == c && b == d
  }

  /** No collision between the nodes of two trees at the same place. */
  predicate NodesApart(hash: Hash2, a: seq<int>, b: seq<int>, height: nat)
    requires |a| == |b| == Pow(2, height)
    decreases height
  {
    height > 0 ==>
      var half := Pow(2, height - 1);
      && NoCollision(hash, TreeRoot(hash, a[..half], height - 1), TreeRoot(hash, a[half..], height - 1),
                     TreeRoot(hash, b[..half], height - 1), TreeRoot(hash, b[half..], height - 1))
      && NodesApart(hash, a[..half], b[..half], height - 1)
      && NodesApart(hash, a[half..], b[half..], height - 1)
  }

  /** Unless two nodes at the same place collide, a root determines every leaf. */
  lemma {:induction false} RootBindsLeaves(hash: Hash2, a: seq<int>, b: seq<int>, height: nat)
    requires |a| == |b| == Pow(2, height) && NodesApart(hash, a, b, height)
    requires TreeRoot(hash, a, height) == TreeRoot(hash, b, height)
    ensures a == b
    decreases height
  {
    if height > 0 {
      var half := Pow(2, height - 1);
      var left, right, left', right' := a[..half], a[half..], b[..half], b[half..];
      assert a == left + right && b == left' + right';
      TreeRootOfHalves(hash, left, right, height - 1);
      TreeRootOfHalves(hash, left', right', height - 1);
      hide TreeRoot;
      RootBindsLeaves(hash, left, left', height - 1);
      RootBindsLeaves(hash, right, right', height - 1);
    }
  }

  /** Equal sparse roots come from the same commitment at the same position. */
  lemma SparseRootBinds(hash: Hash2, height: nat, i: nat, x: int, j: nat, y: int)
    requires i < Pow(2, height) && j < Pow(2, height) && x != 0 && y != 0
    requires NodesApart(hash, OneLeaf(height, i, x), OneLeaf(height, j, y), height)
    ensures TreeRoot(hash, OneLeaf(height, i, x), height) == TreeRoot(hash, OneLeaf(height, j, y), height) <==> i == j && x == y
  {
    if TreeRoot(hash, OneLeaf(height, i, x), height) == TreeRoot(hash, OneLeaf(height, j, y), height) {
      RootBindsLeaves(hash, OneLeaf(height, i, x), OneLeaf(height, j, y), height);
      assert OneLeaf(height, i, x)[i] == x && OneLeaf(height, j, y)[i] == x;
    }
  }

  /** The nodes a path passes do not collide with the tree's nodes at the same place. */
  predicate PathApart(hash: Hash2, leaves: seq<int>, leaf: int, elements: seq<int>, indices: seq<int>)
    requires |elements| == |indices| && |leaves| == Pow(2, |elements|)
    decreases |elements|
  {
    elements != [] ==>
      var i := |elements| - 1;
      var left, right := leaves[..Pow(2, i)], leaves[Pow(2, i)..];
      var below := PathRoot(hash, leaf, elements[..i], indices[..i]);
      && NoCollision(hash, Select(below, elements[i], indices[i]), Select(elements[i], below, indices[i]),
                     TreeRoot(hash, left, i), TreeRoot(hash, right, i))
      && PathApart(hash, if indices[i] == 0 then left else right, leaf, elements[..i], indices[..i])
  }

  lemma TopOfPath(hash: Hash2, leaf: int, elements: seq<int>, indices: seq<int>, left: seq<int>, right: seq<int>)
    requires |elements| == |indices| && elements != []
    requires |left| == |right| == Pow(2, |elements| - 1)
    requires |left + right| == Pow(2, |elements|) && PathApart(hash, left + right, leaf, elements, indices)
    requires PathRoot(hash, leaf, elements, indices) == TreeRoot(hash, left + right, |elements|)
    ensures var i := |elements| - 1;
      PathRoot(hash, leaf, elements[..i], indices[..i])
        == if indices[i] == 0 then TreeRoot(hash, left, i) else TreeRoot(hash, right, i)
  {
    TreeRootOfHalves(hash, left, right, |elements| - 1);
    assert (left + right)[..|left|] == left && (left + right)[|left|..] == right;
  }

  /** Soundness: a path the circuit accepts against a tree's root starts at that tree's leaf, at the
      position its bits spell. */
  lemma {:induction false} AcceptedPathIsMembership(hash: Hash2, leaves: seq<int>, leaf: int, elements: seq<int>, indices: seq<int>)
    requires |elements| == |indices| && |leaves| == Pow(2, |elements|) && PathApart(hash, leaves, leaf, elements, indices)
    requires PathRoot(hash, leaf, elements, indices) == TreeRoot(hash, leaves, |elements|)
    ensures Position(indices) < |leaves| && leaves[Position(indices)] == leaf
    decreases |elements|
  {
    if elements != [] {
      var i := |elements| - 1;
      var left, right := leaves[..Pow(2, i)], leaves[Pow(2, i)..];
      assert leaves == left + right;
      TopOfPath(hash, leaf, elements, indices, left, right);
      AcceptedPathIsMembership(hash, if indices[i] == 0 then left else right, leaf, elements[..i], indices[..i]);
    }
  }
}
