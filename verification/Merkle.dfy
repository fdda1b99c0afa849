/** The keccak160 Merkle tree over price messages: the level-by-level builder and the proof builder
    of the test helpers, and the contract-side check that folds a proof into a root. */
module Merkle {
  import opened Bytes
  import opened Clarity

  type Keccak = Buffer -> Hash256

  function Keccak160(keccak: Keccak, preimage: Buffer): Hash160 {
    keccak(preimage)[..20]
  }

  function LeafPreimage(leaf: Buffer): Buffer {
    [0] + leaf
  }

  /** Two nodes are hashed smaller first. */
  function NodePreimage(a: Hash160, b: Hash160): Buffer {
    if ToUint(b) < ToUint(a) then [1] + b + a else [1] + a + b
  }

  function HashLeaf(keccak: Keccak, leaf: Buffer): Hash160 {
    Keccak160(keccak, LeafPreimage(leaf))
  }

  function HashNodes(keccak: Keccak, a: Hash160, b: Hash160): Hash160 {
    Keccak160(keccak, NodePreimage(a, b))
  }

  function HashLeaves(keccak: Keccak, leaves: seq<Buffer>): (hashes: seq<Hash160>)
    ensures |hashes| == |leaves|
  {
    seq(|leaves|, i requires 0 <= i < |leaves| => HashLeaf(keccak, leaves[i]))
  }

  // ---------- the tree as a function ----------

  /** The partner of the node at an even position: its neighbour, or itself when it is the last of an odd
      level. */
  function Right(nodes: seq<Hash160>, i: nat): Hash160
    requires i < |nodes|
  {
    if i + 1 < |nodes| then nodes[i + 1] else nodes[i]
  }

  function Sibling(nodes: seq<Hash160>, position: nat): Hash160
    requires position < |nodes|
  {
    if position % 2 == 1 then nodes[position - 1]
    else if position + 1 < |nodes| then nodes[position + 1]
    else nodes[position]
  }

  /** The next level up. */
  function Level(keccak: Keccak, nodes: seq<Hash160>): (up: seq<Hash160>)
    ensures |up| == (|nodes| + 1) / 2
  {
    var n := (|nodes| + 1) / 2;
    seq(n, i requires 0 <= i < n => HashNodes(keccak, nodes[2 * i], Right(nodes, 2 * i)))
  }

  function Root(keccak: Keccak, nodes: seq<Hash160>): Hash160
    requires |nodes| > 0
    decreases |nodes|
  {
    if |nodes| == 1 then nodes[0] else Root(keccak, Level(keccak, nodes))
  }

  /** The number of levels above a level of n nodes. */
  function Height(n: nat): nat {
    if n <= 1 then 0 else 1 + Height((n + 1) / 2)
  }

  function ProofPath(keccak: Keccak, nodes: seq<Hash160>, position: nat): (path: seq<Hash160>)
    requires position < |nodes|
    ensures |path| == Height(|nodes|)
    decreases |nodes|
  {
    if |nodes| == 1 then []
    else [Sibling(nodes, position)] + ProofPath(keccak, Level(keccak, nodes), position / 2)
  }

  /** What check-proof folds from a starting hash along a path. */
  function FoldPath(keccak: Keccak, hash: Hash160, path: seq<Hash160>): Hash160
    decreases |path|
  {
    if path == [] then hash else FoldPath(keccak, HashNodes(keccak, hash, path[0]), path[1..])
  }

  /** check-proof of hk-merkle-tree-keccak160-v1, through its assumed contract. */
  predicate CheckProof(keccak: Keccak, root: Buffer, leaf: Buffer, path: seq<Hash160>) {
    FoldPath(keccak, HashLeaf(keccak, leaf), path) == root
  }

  // ---------- the loops of the helpers ----------

  /** The hash of a pair, said of the raw hash: behind a 1, the smaller first, twenty bytes. */
  ghost predicate IsPairHash(keccak: Keccak, a: Hash160, b: Hash160, h: Hash160) {
    h == keccak(if ToUint(a) <= ToUint(b) then [1] + a + b else [1] + b + a)[0..20]
  }

  lemma HashOfPair(keccak: Keccak, a: Hash160, b: Hash160)
    ensures IsPairHash(keccak, a, b, HashNodes(keccak, a, b))
  {
    if ToUint(a) == ToUint(b) {
      UintInjective(a, b);
    }
  }

  /** The level above: adjacent pairs, and an odd last node paired with itself. */
  ghost predicate IsLevelAbove(keccak: Keccak, nodes: seq<Hash160>, up: seq<Hash160>) {
    && |up| == (|nodes| + 1) / 2
    && (forall i :: 0 <= i < |nodes| / 2 ==> IsPairHash(keccak, nodes[2 * i], nodes[2 * i + 1], up[i]))
    && (|nodes| % 2 == 1 ==> IsPairHash(keccak, nodes[|nodes| - 1], nodes[|nodes| - 1], up[|nodes| / 2]))
  }

  lemma LevelIsAbove(keccak: Keccak, nodes: seq<Hash160>)
    ensures IsLevelAbove(keccak, nodes, Level(keccak, nodes))
  {
    hide HashNodes, IsPairHash;
    var up := Level(keccak, nodes);
    forall i | 0 <= i < |nodes| / 2
      ensures IsPairHash(keccak, nodes[2 * i], nodes[2 * i + 1], up[i])
    {
      HashOfPair(keccak, nodes[2 * i], nodes[2 * i + 1]);
    }
    if |nodes| % 2 == 1 {
      var last := nodes[|nodes| - 1];
      assert 2 * (|nodes| / 2) == |nodes| - 1;
      HashOfPair(keccak, last, last);
    }
  }

  /** There is one level above. */
  lemma SameLevel(keccak: Keccak, nodes: seq<Hash160>, a: seq<Hash160>, b: seq<Hash160>)
    requires IsLevelAbove(keccak, nodes, a) && IsLevelAbove(keccak, nodes, b)
    ensures a == b
  {
    forall i | 0 <= i < |a|
      ensures a[i] == b[i]
    {
      if i < |nodes| / 2 {
        assert IsPairHash(keccak, nodes[2 * i], nodes[2 * i + 1], a[i]);
      } else {
        assert i == |nodes| / 2;
      }
    }
  }

  /** The root of one leaf is its hash, and a level has the root of the level above it. */
  lemma RootByLevels(keccak: Keccak, nodes: seq<Hash160>, up: seq<Hash160>)
    requires |nodes| > 0
    ensures |nodes| == 1 ==> Root(keccak, nodes) == nodes[0]
    ensures |nodes| > 1 && IsLevelAbove(keccak, nodes, up) ==> |up| > 0 && Root(keccak, nodes) == Root(keccak, up)
  {
    if |nodes| > 1 && IsLevelAbove(keccak, nodes, up) {
      LevelIsAbove(keccak, nodes);
      SameLevel(keccak, nodes, up, Level(keccak, nodes));
    }
  }

  /** Doubling the last node of an odd level does not change the root. */
  lemma OddLastDoubled(keccak: Keccak, nodes: seq<Hash160>)
    requires |nodes| > 1 && |nodes| % 2 == 1
    ensures Root(keccak, nodes) == Root(keccak, nodes + [nodes[|nodes| - 1]])
  {
    hide Level, Root, IsPairHash;
    var doubled := nodes + [nodes[|nodes| - 1]];
    var up := Level(keccak, nodes);
    LevelIsAbove(keccak, nodes);
    var half := |nodes| / 2;
    assert |nodes| == 2 * half + 1 && |doubled| == 2 * (half + 1);
    forall i | 0 <= i < |doubled| / 2
      ensures IsPairHash(keccak, doubled[2 * i], doubled[2 * i + 1], up[i])
    {
      if i < half {
        assert doubled[2 * i] == nodes[2 * i] && doubled[2 * i + 1] == nodes[2 * i + 1];
      } else {
        assert i == half;
      }
    }
    assert IsLevelAbove(keccak, doubled, up);
    RootByLevels(keccak, nodes, up);
    RootByLevels(keccak, doubled, up);
  }

  /** What the proof check hashes, said of the raw hash: a leaf behind a 0, two nodes behind a 1 with the
      smaller first, twenty bytes of each hash. */
  lemma CheckProofHashes(keccak: Keccak, root: Hash160, leaf: Buffer, sibling: Hash160, hash: Hash160, parent: Hash160,
                         path: seq<Hash160>)
    ensures CheckProof(keccak, root, leaf, path) <==> FoldPath(keccak, keccak([0] + leaf)[0..20], path) == root
    ensures FoldPath(keccak, hash, []) == hash
    ensures IsPairHash(keccak, hash, sibling, parent) ==>
              FoldPath(keccak, hash, [sibling] + path) == FoldPath(keccak, parent, path)
  {
    HashOfPair(keccak, hash, sibling);
    FoldPathStep(keccak, hash, sibling, path);
  }

  /** One level of the tree: adjacent pairs, an odd last node paired with itself. */
  method BuildLevel(keccak: Keccak, nodes: seq<Hash160>) returns (up: seq<Hash160>)
    ensures up == Level(keccak, nodes) && IsLevelAbove(keccak, nodes, up)
  {
    LevelIsAbove(keccak, nodes);
    hide HashNodes, IsLevelAbove;
    up := [];
    var i := 0;
    while i < |nodes|
      invariant i % 2 == 0 && i <= |nodes| + 1
      invariant |up| == i / 2 <= (|nodes| + 1) / 2
      invariant forall j :: 0 <= j < |up| ==> up[j] == Level(keccak, nodes)[j]
    {
      var left := nodes[i];
      var right := if i + 1 < |nodes| then nodes[i + 1] else left;
      up := up + [HashNodes(keccak, left, right)];
      i := i + 2;
    }
  }

  method BuildRoot(keccak: Keccak, hashed: seq<Hash160>) returns (root: Hash160)
    requires |hashed| > 0
    ensures root == Root(keccak, hashed)
  {
    var nodes := hashed;
    while |nodes| > 1
      invariant |nodes| > 0 && Root(keccak, nodes) == Root(keccak, hashed)
      decreases |nodes|
    {
      nodes := BuildLevel(keccak, nodes);
    }
    root := nodes[0];
  }

  /** One level of the proof builder: the same pairs, and the sibling of the target captured as its
      pair goes by. The helper tells nodes apart by reference; here the target is its position. */
  method BuildLevelCapturing(keccak: Keccak, nodes: seq<Hash160>, target: nat)
      returns (up: seq<Hash160>, captured: seq<Hash160>, parent: nat)
    requires target < |nodes|
    ensures up == Level(keccak, nodes) && IsLevelAbove(keccak, nodes, up)
    ensures captured == [Sibling(nodes, target)]
    ensures captured[0] == (if target % 2 == 1 then nodes[target - 1]
                            else if target + 1 < |nodes| then nodes[target + 1]
                            else nodes[target])
    ensures parent == target / 2
  {
    LevelIsAbove(keccak, nodes);
    hide HashNodes, IsLevelAbove;
    up, captured, parent := [], [], 0;
    var i := 0;
    while i < |nodes|
      invariant i % 2 == 0 && i <= |nodes| + 1
      invariant |up| == i / 2 <= (|nodes| + 1) / 2
      invariant forall j :: 0 <= j < |up| ==> up[j] == Level(keccak, nodes)[j]
      invariant captured == if target < i then [Sibling(nodes, target)] else []
      invariant target < i ==> parent == target / 2
    {
      var left := nodes[i];
      var right := if i + 1 < |nodes| then nodes[i + 1] else left;
      up := up + [HashNodes(keccak, left, right)];
      if i == target {
        captured := captured + [right];
        parent := |up| - 1;
      } else if i + 1 == target {
        captured := captured + [left];
        parent := |up| - 1;
      }
      i := i + 2;
    }
  }

  method ComputeMerkleProof(keccak: Keccak, hashed: seq<Hash160>, position: nat) returns (proof: seq<Hash160>)
    requires position < |hashed|
    ensures proof == ProofPath(keccak, hashed, position)
  {
    proof := [];
    var nodes, target: nat := hashed, position;
    while |nodes| > 1
      invariant target < |nodes|
      invariant proof + ProofPath(keccak, nodes, target) == ProofPath(keccak, hashed, position)
      decreases |nodes|
    {
      var up, captured, parent := BuildLevelCapturing(keccak, nodes, target);
      assert proof + (captured + ProofPath(keccak, up, parent)) == (proof + captured) + ProofPath(keccak, up, parent);
      proof := proof + captured;
      nodes, target := up, parent;
    }
    assert proof + [] == proof;
  }

  // ---------- completeness ----------

  lemma FoldPathStep(keccak: Keccak, hash: Hash160, sibling: Hash160, above: seq<Hash160>)
    ensures FoldPath(keccak, hash, [sibling] + above) == FoldPath(keccak, HashNodes(keccak, hash, sibling), above)
  {
    assert ([sibling] + above)[1..] == above;
  }

  /** The order of two nodes does not matter to their hash. */
  lemma HashNodesSymmetric(keccak: Keccak, a: Hash160, b: Hash160)
    ensures HashNodes(keccak, a, b) == HashNodes(keccak, b, a)
  {
    if ToUint(a) == ToUint(b) {
      UintInjective(a, b);
    }
  }

  lemma ParentOf(keccak: Keccak, nodes: seq<Hash160>, position: nat)
    requires position < |nodes|
    ensures Level(keccak, nodes)[position / 2] == HashNodes(keccak, nodes[position], Sibling(nodes, position))
  {
    if position % 2 == 1 {
      assert 2 * (position / 2) == position - 1;
      HashNodesSymmetric(keccak, nodes[position], nodes[position - 1]);
    } else {
      assert 2 * (position / 2) == position;
    }
  }

  /** Folding the siblings of any position of any level, odd ones included, gives the root. */
  lemma {:induction false} PathReachesRoot(keccak: Keccak, nodes: seq<Hash160>, position: nat)
    requires position < |nodes|
    ensures FoldPath(keccak, nodes[position], ProofPath(keccak, nodes, position)) == Root(keccak, nodes)
    decreases |nodes|
  {
    if |nodes| <= 1 {
    } else {
      var up := Level(keccak, nodes);
      PathReachesRoot(keccak, up, position / 2);
      ParentOf(keccak, nodes, position);
      var above := ProofPath(keccak, up, position / 2);
      FoldPathStep(keccak, nodes[position], Sibling(nodes, position), above);
    }
  }

  /** Completeness: every leaf of every non-empty batch checks against the root of the batch with
      the proof built for its position. */
  lemma Completeness(keccak: Keccak, leaves: seq<Buffer>, position: nat)
    requires position < |leaves|
    ensures var hashed := HashLeaves(keccak, leaves);
            CheckProof(keccak, Root(keccak, hashed), leaves[position], ProofPath(keccak, hashed, position))
  {
    PathReachesRoot(keccak, HashLeaves(keccak, leaves), position);
  }

  // ---------- soundness ----------

  /** keccak160 tells these particular strings apart. Over all strings no 20-byte hash does. */
  ghost predicate CollisionFree(keccak: Keccak, strings: set<Buffer>) {
    forall x, y :: x in strings && y in strings && Keccak160(keccak, x) == Keccak160(keccak, y) ==> x == y
  }

  /** The strings hashed in building the tree above a level. */
  ghost function TreeStrings(keccak: Keccak, nodes: seq<Hash160>): set<Buffer>
    decreases |nodes|
  {
    if |nodes| <= 1 then {}
    else
      (set i | 0 <= i < (|nodes| + 1) / 2 :: NodePreimage(nodes[2 * i], Right(nodes, 2 * i)))
      + TreeStrings(keccak, Level(keccak, nodes))
  }

  /** The strings hashed in folding a path. */
  ghost function PathStrings(keccak: Keccak, hash: Hash160, path: seq<Hash160>): set<Buffer>
    decreases |path|
  {
    if path == [] then {}
    else {NodePreimage(hash, path[0])} + PathStrings(keccak, HashNodes(keccak, hash, path[0]), path[1..])
  }

  /** Every string hashed in building the root of a batch and in checking one proof against it. */
  ghost function HashedStrings(keccak: Keccak, leaves: seq<Buffer>, leaf: Buffer, path: seq<Hash160>): set<Buffer> {
    (set i | 0 <= i < |leaves| :: LeafPreimage(leaves[i]))
    + TreeStrings(keccak, HashLeaves(keccak, leaves))
    + {LeafPreimage(leaf)}
    + PathStrings(keccak, HashLeaf(keccak, leaf), path)
  }

  /** The last fold step of a non-empty path. */
  lemma {:induction false} FoldPathLast(keccak: Keccak, hash: Hash160, path: seq<Hash160>)
    requires path != []
    ensures var last := |path| - 1;
            var before := FoldPath(keccak, hash, path[..last]);
            && FoldPath(keccak, hash, path) == HashNodes(keccak, before, path[last])
            && NodePreimage(before, path[last]) in PathStrings(keccak, hash, path)
    decreases |path|
  {
    if |path| <= 1 {
    } else {
      FoldPathLast(keccak, HashNodes(keccak, hash, path[0]), path[1..]);
      assert path[1..][..|path| - 2] == path[..|path| - 1][1..];
    }
  }

  lemma {:induction false} PathStringsPrefix(keccak: Keccak, hash: Hash160, path: seq<Hash160>, m: nat)
    requires m <= |path|
    ensures PathStrings(keccak, hash, path[..m]) <= PathStrings(keccak, hash, path)
    decreases |path|
  {
    if m == 0 {
    } else {
      PathStringsPrefix(keccak, HashNodes(keccak, hash, path[0]), path[1..], m - 1);
      assert path[..m][1..] == path[1..][..m - 1];
    }
  }

  /** The nodes under equal preimages are the same two nodes. */
  lemma PreimageDetermines(a: Hash160, b: Hash160, c: Hash160, d: Hash160)
    requires NodePreimage(a, b) == NodePreimage(c, d)
    ensures a == c || a == d
  {
    var p, q := NodePreimage(a, b), NodePreimage(c, d);
    assert p[1..21] == (if ToUint(b) < ToUint(a) then b else a);
    assert p[21..] == (if ToUint(b) < ToUint(a) then a else b);
    assert q[1..21] == (if ToUint(d) < ToUint(c) then d else c);
    assert q[21..] == (if ToUint(d) < ToUint(c) then c else d);
  }

  lemma LeafIsNoNode(leaf: Buffer, a: Hash160, b: Hash160)
    ensures LeafPreimage(leaf) != NodePreimage(a, b)
  {
    assert LeafPreimage(leaf)[0] != NodePreimage(a, b)[0];
  }

  /** If the fold has the hash of a pair of nodes, one step earlier it was one of the two. */
  lemma OneLevelDown(keccak: Keccak, strings: set<Buffer>, leaf: Buffer, path: seq<Hash160>, above: nat,
                     a: Hash160, b: Hash160)
      returns (m: nat)
    requires CollisionFree(keccak, strings) && above <= |path|
    requires LeafPreimage(leaf) in strings && NodePreimage(a, b) in strings
    requires PathStrings(keccak, HashLeaf(keccak, leaf), path) <= strings
    requires FoldPath(keccak, HashLeaf(keccak, leaf), path[..above]) == HashNodes(keccak, a, b)
    ensures m < above && FoldPath(keccak, HashLeaf(keccak, leaf), path[..m]) in [a, b]
  {
    var hash := HashLeaf(keccak, leaf);
    LeafIsNoNode(leaf, a, b);
    assert above > 0;
    FoldPathLast(keccak, hash, path[..above]);
    PathStringsPrefix(keccak, hash, path, above);
    m := above - 1;
    assert path[..above][..m] == path[..m];
    PreimageDetermines(FoldPath(keccak, hash, path[..m]), path[m], a, b);
  }

  /** A path folding to the root passes through every level on its way down to this one. */
  lemma {:induction false} PassesThrough(
      keccak: Keccak, strings: set<Buffer>, nodes: seq<Hash160>, leaf: Buffer, path: seq<Hash160>)
      returns (m: nat)
    requires |nodes| > 0 && CollisionFree(keccak, strings)
    requires LeafPreimage(leaf) in strings
    requires TreeStrings(keccak, nodes) <= strings
    requires PathStrings(keccak, HashLeaf(keccak, leaf), path) <= strings
    requires FoldPath(keccak, HashLeaf(keccak, leaf), path) == Root(keccak, nodes)
    ensures m <= |path| && FoldPath(keccak, HashLeaf(keccak, leaf), path[..m]) in nodes
    decreases |nodes|
  {
    if |nodes| == 1 {
      m := |path|;
      assert path[..m] == path;
      return;
    }
    var hash := HashLeaf(keccak, leaf);
    var up := Level(keccak, nodes);
    var above := PassesThrough(keccak, strings, up, leaf, path);
    var i :| 0 <= i < |up| && up[i] == FoldPath(keccak, hash, path[..above]);
    var pair := NodePreimage(nodes[2 * i], Right(nodes, 2 * i));
    assert pair in TreeStrings(keccak, nodes);
    assert Keccak160(keccak, pair) == FoldPath(keccak, hash, path[..above]);
    m := OneLevelDown(keccak, strings, leaf, path, above, nodes[2 * i], Right(nodes, 2 * i));
  }

  /** Soundness: whatever leaf and path, of whatever length, are accepted against the root of a
      batch, the leaf is in the batch, or two different strings that were hashed on the way share
      their hash. */
  lemma Soundness(keccak: Keccak, leaves: seq<Buffer>, leaf: Buffer, path: seq<Hash160>)
    requires |leaves| > 0
    requires CheckProof(keccak, Root(keccak, HashLeaves(keccak, leaves)), leaf, path)
    ensures leaf in leaves || !CollisionFree(keccak, HashedStrings(keccak, leaves, leaf, path))
  {
    var strings := HashedStrings(keccak, leaves, leaf, path);
    if CollisionFree(keccak, strings) {
      var hashed := HashLeaves(keccak, leaves);
      var m := PassesThrough(keccak, strings, hashed, leaf, path);
      var i :| 0 <= i < |hashed| && hashed[i] == FoldPath(keccak, HashLeaf(keccak, leaf), path[..m]);
      assert LeafPreimage(leaves[i]) in strings;
      if m > 0 {
        FoldPathLast(keccak, HashLeaf(keccak, leaf), path[..m]);
        PathStringsPrefix(keccak, HashLeaf(keccak, leaf), path, m);
        LeafIsNoNode(leaves[i], FoldPath(keccak, HashLeaf(keccak, leaf), path[..m][..m - 1]), path[..m][m - 1]);
      }
      assert LeafPreimage(leaf)[1..] == leaf && LeafPreimage(leaves[i])[1..] == leaves[i];
    }
  }
}
