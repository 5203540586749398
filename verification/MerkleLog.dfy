/** The Merkle log, as an object that rebuilds its levels on every append. */
module MerkleLog {
  import opened Hashing
  import opened Wrappers
  import opened MerkleSpec
  import Sequences

  datatype ProofError = IndexOutOfBounds

  class MerkleTree {
    const hash: HashFn
    var leaves: seq<Bytes>
    var leafHashes: seq<Digest>
    var tree: seq<seq<Digest>>

    ghost predicate Valid()
      reads this
    {
      && leafHashes == LeafHashes(hash, leaves)
      && (leaves != [] ==> tree != [])
      && (tree != [] ==> AreLevels(hash, leafHashes, tree))
    }

    constructor (hash: HashFn, leaves: seq<Bytes>)
      ensures Valid()
      ensures this.hash == hash && this.leaves == leaves
    {
      this.hash := hash;
      this.leaves := leaves;
      this.leafHashes := LeafHashes(hash, leaves);
      this.tree := [];
      new;
      if leafHashes != [] {
        BuildTree();
      }
    }

    method AddLeaf(leaf: Bytes) returns (idx: nat)
      requires Valid()
      modifies this
      ensures Valid()
      ensures leaves == old(leaves) + [leaf] && idx == |old(leaves)|
    {
      idx := |leaves|;
      leaves := leaves + [leaf];
      leafHashes := leafHashes + [LeafHash(hash, leaf)];
      BuildTree();
    }

    /** Rebuilds every level from the leaf hashes. */
    method BuildTree()
      modifies this`tree
      ensures AreLevels(hash, leafHashes, tree)
    {
      var nodes := leafHashes;
      tree := [nodes];
      while |nodes| > 1
        invariant tree != [] && tree[0] == leafHashes && nodes == tree[|tree| - 1]
        invariant forall i :: 0 <= i < |tree| - 1 ==> |tree[i]| > 1 && tree[i + 1] == LevelUp(hash, tree[i])
        decreases |nodes|
      {
        var nextLevel := PairUp(nodes);
        tree := tree + [nextLevel];
        nodes := nextLevel;
      }
    }

    /** The inner loop of BuildTree: one pairing pass. */
    method PairUp(nodes: seq<Digest>) returns (nextLevel: seq<Digest>)
      ensures nextLevel == LevelUp(hash, nodes)
    {
      nextLevel := [];
      var i := 0;
      while i < |nodes|
        invariant 0 <= i <= |nodes| + 1
        invariant i <= |nodes| ==> nextLevel + LevelUp(hash, nodes[i..]) == LevelUp(hash, nodes)
        invariant i == |nodes| + 1 ==> nextLevel == LevelUp(hash, nodes)
      {
        var parent;
        if i + 1 < |nodes| {
          parent := NodeHash(hash, nodes[i], nodes[i + 1]);
          assert nodes[i..][2..] == nodes[i + 2..];
        } else {
          parent := nodes[i];
          assert nodes[i..] == [parent];
        }
        nextLevel := nextLevel + [parent];
        i := i + 2;
      }
    }

    /** The root is the tree hash of RFC 6962 of all leaves added so far. */
    method Root() returns (root: Digest)
      requires Valid()
      ensures root == TreeHash(hash, leaves)
    {
      if tree != [] {
        LevelsRootIsTreeHash(hash, leaves, tree);
      }
      if tree == [] || tree[|tree| - 1] == [] {
        root := hash([]);
      } else {
        root := tree[|tree| - 1][0];
      }
    }

    /** Walks the levels; the result is the audit path of RFC 6962, and only bad indices fail. */
    method GetInclusionProof(index: int) returns (proof: Result<seq<Step>, ProofError>)
      requires Valid()
      ensures proof.Ok? <==> 0 <= index < |leaves|
      ensures proof.Ok? ==> proof.value == AuditPath(hash, index, leaves)
    {
      if index < 0 || index >= |leafHashes| {
        return Err(IndexOutOfBounds);
      }
      GatheredPathIsAuditPath(hash, index, leaves, tree);
      var steps := CollectSteps(index);
      return Ok(steps);
    }

    /** The loop of GetInclusionProof over all levels below the last. */
    method CollectSteps(index: nat) returns (steps: seq<Step>)
      ensures steps == PathFrom(tree, 0, index)
    {
      var idx: nat, i := index, 0;
      steps := [];
      while i < |tree| - 1
        invariant 0 <= i <= |tree|
        invariant steps + PathFrom(tree, i, idx) == PathFrom(tree, 0, index)
      {
        ghost var before, step := steps, LevelStep(tree[i], idx, idx / 2);
        Sequences.Reassociate(before, step, PathFrom(tree, i + 1, idx / 2));
        var isRight := idx % 2 == 1;
        var siblingIdx := if isRight then idx - 1 else idx + 1;
        if siblingIdx < |tree[i]| {
          steps := steps + [Step(isRight, tree[i][siblingIdx])];
        }
        assert steps == before + step;
        idx := idx / 2;
        i := i + 1;
      }
    }

    /** Folds the path from the leaf hash; the index and the size play no part in the answer. */
    static method VerifyInclusion(hash: HashFn, leaf: Bytes, index: int, treeSize: int, root: Bytes, proof: seq<Step>)
      returns (ok: bool)
      ensures ok <==> FoldPath(hash, LeafHash(hash, leaf), proof) == root
    {
      var current := LeafHash(hash, leaf);
      var i := 0;
      while i < |proof|
        invariant 0 <= i <= |proof|
        invariant FoldPath(hash, current, proof[i..]) == FoldPath(hash, LeafHash(hash, leaf), proof)
      {
        assert proof[i..][1..] == proof[i + 1..];
        current := StepHash(hash, current, proof[i]);
        i := i + 1;
      }
      return current == root;
    }

    /** The proof of every leaf of every tree is accepted against the tree's root. */
    method ProveAndVerify(index: nat) returns (ok: bool)
      requires Valid() && index < |leaves|
      ensures ok
    {
      var proof := GetInclusionProof(index);
      var root := Root();
      AuditPathFolds(hash, index, leaves);
      ok := VerifyInclusion(hash, leaves[index], index, |leaves|, root, proof.value);
    }
  }
}
