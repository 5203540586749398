/**
 The Merkle tree of section 2.1 of RFC 6962, defined top-down as the standard does, and the
 bottom-up levels that the log builds, with the lemmas that relate the two.
 */
module MerkleSpec {
  import opened Hashing
  import opened Wrappers

  const LEAF_PREFIX: Bytes := [0]
  const NODE_PREFIX: Bytes := [1]

  function LeafHash(h: HashFn, leaf: Bytes): Digest {
    h(LEAF_PREFIX + leaf)
  }

  function NodeHash(h: HashFn, left: Bytes, right: Bytes): Digest {
    h(NODE_PREFIX + left + right)
  }

  function LeafHashes(h: HashFn, leaves: seq<Bytes>): (r: seq<Digest>)
    ensures |r| == |leaves|
    ensures forall i :: 0 <= i < |leaves| ==> r[i] == LeafHash(h, leaves[i])
  {
    seq(|leaves|, i requires 0 <= i < |leaves| => LeafHash(h, leaves[i]))
  }

  /* ----- The standard's recursive definitions ----- */

  ghost predicate IsPowerOfTwo(k: nat) {
    k == 1 || (k > 0 && k % 2 == 0 && IsPowerOfTwo(k / 2))
  }

  /** The first of p, 2p, 4p, ... whose double reaches n. */
  function SplitFrom(n: nat, p: nat): (k: nat)
    requires 0 < p < n
    ensures p <= k < n <= 2 * k
    decreases n - p
  {
    if n <= 2 * p then p else SplitFrom(n, 2 * p)
  }

  /** The largest power of two smaller than n. */
  function Split(n: nat): (k: nat)
    requires n > 1
    ensures k < n <= 2 * k
  {
    SplitFrom(n, 1)
  }

  lemma {:induction false} SplitFromIsPowerOfTwo(n: nat, p: nat)
    requires 0 < p < n && IsPowerOfTwo(p)
    ensures IsPowerOfTwo(SplitFrom(n, p))
    decreases n - p
  {
    if n > 2 * p {
      SplitFromIsPowerOfTwo(n, 2 * p);
    }
  }

  /** With k < n <= 2k, which Split ensures, k is the largest power of two below n. */
  lemma SplitIsPowerOfTwo(n: nat)
    requires n > 1
    ensures IsPowerOfTwo(Split(n))
  {
    SplitFromIsPowerOfTwo(n, 1);
  }

  /** Halving the size, rounded up, halves the split point. */
  lemma {:induction false} SplitFromHalves(n: nat, half: nat, p: nat)
    requires 2 * half - 1 <= n <= 2 * half && 0 < p < half
    ensures 2 * p < n && SplitFrom(n, 2 * p) == 2 * SplitFrom(half, p)
    decreases half - p
  {
    if half > 2 * p {
      SplitFromHalves(n, half, 2 * p);
    }
  }

  /** MTH(D[n]) of section 2.1 of RFC 6962. */
  ghost function TreeHash(h: HashFn, leaves: seq<Bytes>): Digest {
    if |leaves| == 0 then h([])
    else if |leaves| == 1 then LeafHash(h, leaves[0])
    else
      var k := Split(|leaves|);
      NodeHash(h, TreeHash(h, leaves[..k]), TreeHash(h, leaves[k..]))
  }

  /** The definition of the standard in its own terms, with the two prefix bytes and the order of the halves. */
  lemma TreeHashIsRfc6962(h: HashFn, leaves: seq<Bytes>)
    ensures |leaves| == 0 ==> TreeHash(h, leaves) == h([])
    ensures |leaves| == 1 ==> TreeHash(h, leaves) == h([0x00] + leaves[0])
    ensures |leaves| > 1 ==>
              exists k :: 0 < k < |leaves| <= 2 * k && IsPowerOfTwo(k)
                          && TreeHash(h, leaves) == h([0x01] + TreeHash(h, leaves[..k]) + TreeHash(h, leaves[k..]))
  {
    if |leaves| > 1 {
      SplitIsPowerOfTwo(|leaves|);
      var k := Split(|leaves|);
      assert TreeHash(h, leaves) == h([0x01] + TreeHash(h, leaves[..k]) + TreeHash(h, leaves[k..]));
    }
  }

  /** One step of an audit path: a sibling hash and the side it stands on. */
  datatype Step = Step(left: bool, sibling: Bytes)

  /** PATH(m, D[n]) of section 2.1.1 of RFC 6962, with the side of every sibling. */
  ghost function AuditPath(h: HashFn, m: nat, leaves: seq<Bytes>): seq<Step>
    requires m < |leaves|
    decreases |leaves|
  {
    if |leaves| == 1 then []
    else
      var k := Split(|leaves|);
      if m < k then AuditPath(h, m, leaves[..k]) + [Step(false, TreeHash(h, leaves[k..]))]
      else AuditPath(h, m - k, leaves[k..]) + [Step(true, TreeHash(h, leaves[..k]))]
  }

  /** The least e with 2^e >= n. */
  ghost function CeilLog2(n: nat): nat {
    if n <= 1 then 0 else 1 + CeilLog2((n + 1) / 2)
  }

  ghost function Pow2(e: nat): nat {
    if e == 0 then 1 else 2 * Pow2(e - 1)
  }

  lemma {:induction false} CeilLog2IsLeast(n: nat)
    requires n >= 1
    ensures n <= Pow2(CeilLog2(n))
    ensures n > 1 ==> Pow2(CeilLog2(n) - 1) < n
  {
    if n > 1 {
      CeilLog2IsLeast((n + 1) / 2);
    }
  }

  /* ----- The levels of the log ----- */

  /** One pairing pass: neighbours are hashed together, an odd last node moves up unchanged. */
  function LevelUp(h: HashFn, nodes: seq<Digest>): (r: seq<Digest>)
    ensures 2 * |r| - 1 <= |nodes| <= 2 * |r|
  {
    if |nodes| <= 1 then nodes
    else [NodeHash(h, nodes[0], nodes[1])] + LevelUp(h, nodes[2..])
  }

  /** Each level is one pairing pass over the level below; only the last has fewer than two nodes. */
  ghost predicate AreLevels(h: HashFn, nodes: seq<Digest>, levels: seq<seq<Digest>>) {
    && levels != [] && levels[0] == nodes
    && (forall i :: 0 <= i < |levels| - 1 ==> |levels[i]| > 1 && levels[i + 1] == LevelUp(h, levels[i]))
    && |levels[|levels| - 1]| <= 1
  }

  /** The recursive tree hash over nodes already hashed. */
  ghost function NodesHash(h: HashFn, nodes: seq<Digest>): Digest
    requires nodes != []
    decreases |nodes|
  {
    if |nodes| == 1 then nodes[0]
    else
      var k := Split(|nodes|);
      NodeHash(h, NodesHash(h, nodes[..k]), NodesHash(h, nodes[k..]))
  }

  ghost function NodesPath(h: HashFn, m: nat, nodes: seq<Digest>): seq<Step>
    requires m < |nodes|
    decreases |nodes|
  {
    if |nodes| == 1 then []
    else
      var k := Split(|nodes|);
      if m < k then NodesPath(h, m, nodes[..k]) + [Step(false, NodesHash(h, nodes[k..]))]
      else NodesPath(h, m - k, nodes[k..]) + [Step(true, NodesHash(h, nodes[..k]))]
  }

  /** The step that one level contributes to the path of node idx: none for a promoted node. */
  function LevelStep(nodes: seq<Digest>, idx: nat, parent: nat): seq<Step> {
    var isRight := idx == 2 * parent + 1;
    var sibling: int := if isRight then idx - 1 else idx + 1;
    if 0 <= sibling < |nodes| then [Step(isRight, nodes[sibling])] else []
  }

  /** The path gathered level by level from level i upwards, stopping below the last level. */
  function PathFrom(levels: seq<seq<Digest>>, i: nat, idx: nat): seq<Step>
    decreases |levels| - i
  {
    if i + 1 >= |levels| then []
    else LevelStep(levels[i], idx, idx / 2) + PathFrom(levels, i + 1, idx / 2)
  }

  /** Folding an audit path into a hash, as a verifier does. */
  function FoldPath(h: HashFn, current: Digest, path: seq<Step>): Digest
    decreases |path|
  {
    if path == [] then current
    else FoldPath(h, StepHash(h, current, path[0]), path[1..])
  }

  function StepHash(h: HashFn, current: Bytes, step: Step): Digest {
    if step.left then NodeHash(h, step.sibling, current) else NodeHash(h, current, step.sibling)
  }

  /* ----- A pairing pass preserves the recursive hash ----- */

  lemma {:induction false} LevelUpOfSplit(h: HashFn, nodes: seq<Digest>, j: nat)
    requires 2 * j <= |nodes|
    ensures LevelUp(h, nodes) == LevelUp(h, nodes[..2 * j]) + LevelUp(h, nodes[2 * j..])
    decreases j
  {
    if j == 0 {
      assert nodes[..0] == [] && nodes[0..] == nodes;
    } else {
      LevelUpOfSplit(h, nodes[2..], j - 1);
      assert nodes[..2 * j][2..] == nodes[2..][..2 * (j - 1)];
      assert nodes[2..][2 * (j - 1)..] == nodes[2 * j..];
    }
  }

  /** The halves of a split of three or more nodes are the halves one level up. */
  lemma SplitOneLevelUp(h: HashFn, nodes: seq<Digest>) returns (j: nat)
    requires |nodes| > 2
    ensures Split(|nodes|) == 2 * j && Split(|LevelUp(h, nodes)|) == j
    ensures LevelUp(h, nodes)[..j] == LevelUp(h, nodes[..2 * j])
    ensures LevelUp(h, nodes)[j..] == LevelUp(h, nodes[2 * j..])
  {
    j := Split(|LevelUp(h, nodes)|);
    SplitFromHalves(|nodes|, |LevelUp(h, nodes)|, 1);
    LevelUpOfSplit(h, nodes, j);
  }

  lemma {:induction false} LevelUpKeepsHash(h: HashFn, nodes: seq<Digest>)
    requires nodes != []
    ensures NodesHash(h, LevelUp(h, nodes)) == NodesHash(h, nodes)
    decreases |nodes|
  {
    if |nodes| == 2 {
      assert nodes[..1] == [nodes[0]] && nodes[1..] == [nodes[1]];
      assert nodes[2..] == [];
    } else if |nodes| > 2 {
      var j := SplitOneLevelUp(h, nodes);
      LevelUpKeepsHash(h, nodes[..2 * j]);
      LevelUpKeepsHash(h, nodes[2 * j..]);
    }
  }

  lemma {:induction false} KeptToLevel(h: HashFn, nodes: seq<Digest>, levels: seq<seq<Digest>>, i: nat)
    requires AreLevels(h, nodes, levels) && nodes != [] && i < |levels|
    ensures levels[i] != [] && NodesHash(h, levels[i]) == NodesHash(h, nodes)
  {
    if i > 0 {
      KeptToLevel(h, nodes, levels, i - 1);
      LevelUpKeepsHash(h, levels[i - 1]);
    }
  }

  lemma {:induction false} NodesHashIsTreeHash(h: HashFn, leaves: seq<Bytes>)
    requires leaves != []
    ensures NodesHash(h, LeafHashes(h, leaves)) == TreeHash(h, leaves)
    decreases |leaves|
  {
    if |leaves| > 1 {
      var k := Split(|leaves|);
      var nodes := LeafHashes(h, leaves);
      NodesHashIsTreeHash(h, leaves[..k]);
      NodesHashIsTreeHash(h, leaves[k..]);
      assert nodes[..k] == LeafHashes(h, leaves[..k]);
      assert nodes[k..] == LeafHashes(h, leaves[k..]);
    }
  }

  /** The root of the levels, or the hash of the empty string when there are none. */
  function LevelsRoot(h: HashFn, levels: seq<seq<Digest>>): Digest {
    if levels == [] || levels[|levels| - 1] == [] then h([]) else levels[|levels| - 1][0]
  }

  /** The bottom-up levels compute the tree hash of RFC 6962, for every list of leaves. */
  lemma LevelsRootIsTreeHash(h: HashFn, leaves: seq<Bytes>, levels: seq<seq<Digest>>)
    requires AreLevels(h, LeafHashes(h, leaves), levels)
    ensures LevelsRoot(h, levels) == TreeHash(h, leaves)
  {
    if leaves == [] {
      assert levels[|levels| - 1] == [] by {
        assert |levels[0]| == 0;
      }
    } else {
      KeptToLevel(h, LeafHashes(h, leaves), levels, |levels| - 1);
      NodesHashIsTreeHash(h, leaves);
    }
  }

  /* ----- The gathered path is the standard's audit path ----- */

  lemma NodesPathInLeft(h: HashFn, m: nat, nodes: seq<Digest>, k: nat)
    requires |nodes| > 1 && k == Split(|nodes|) && m < k
    ensures NodesPath(h, m, nodes) == NodesPath(h, m, nodes[..k]) + [Step(false, NodesHash(h, nodes[k..]))]
  {
  }

  lemma NodesPathInRight(h: HashFn, m: nat, nodes: seq<Digest>, k: nat)
    requires |nodes| > 1 && k == Split(|nodes|) && k <= m < |nodes|
    ensures NodesPath(h, m, nodes) == NodesPath(h, m - k, nodes[k..]) + [Step(true, NodesHash(h, nodes[..k]))]
  {
  }

  lemma SameLastStep(whole: seq<Step>, half: seq<Step>, step: seq<Step>, up: seq<Step>, upHalf: seq<Step>, last: Step)
    requires whole == half + [last] && up == upHalf + [last] && half == step + upHalf
    ensures whole == step + up
  {
  }

  /** A node's path is its level's step followed by its parent's path one level up. */
  ghost predicate PathClimbs(h: HashFn, m: nat, nodes: seq<Digest>, parent: nat)
    requires m < |nodes| && 2 * parent <= m <= 2 * parent + 1
  {
    NodesPath(h, m, nodes) == LevelStep(nodes, m, parent) + NodesPath(h, parent, LevelUp(h, nodes))
  }

  lemma PathClimbsInPair(h: HashFn, m: nat, nodes: seq<Digest>)
    requires |nodes| == 2 && m < 2
    ensures PathClimbs(h, m, nodes, 0)
  {
    if m == 0 {
      NodesPathInLeft(h, m, nodes, 1);
    } else {
      NodesPathInRight(h, m, nodes, 1);
    }
  }

  lemma {:induction false} PathClimbsInLeft(h: HashFn, m: nat, nodes: seq<Digest>, parent: nat, k: nat)
    requires |nodes| > 2 && k == Split(|nodes|) && m < k && 2 * parent <= m <= 2 * parent + 1
    ensures PathClimbs(h, m, nodes, parent)
    decreases |nodes|, 0
  {
    hide NodesPath, NodesHash, LevelUp, SplitFrom, Split;
    LevelUpKeepsPath(h, m, nodes[..k], parent);
    var j := SplitOneLevelUp(h, nodes);
    LevelUpKeepsHash(h, nodes[k..]);
    NodesPathInLeft(h, m, nodes, k);
    NodesPathInLeft(h, parent, LevelUp(h, nodes), j);
    SameLastStep(NodesPath(h, m, nodes), NodesPath(h, m, nodes[..k]), LevelStep(nodes, m, parent),
                 NodesPath(h, parent, LevelUp(h, nodes)), NodesPath(h, parent, LevelUp(h, nodes[..k])),
                 Step(false, NodesHash(h, nodes[k..])));
  }

  lemma LevelStepInRight(nodes: seq<Digest>, m: nat, parent: nat, j: nat)
    requires 2 * j <= m < |nodes| && 2 * parent <= m <= 2 * parent + 1
    ensures LevelStep(nodes, m, parent) == LevelStep(nodes[2 * j..], m - 2 * j, parent - j)
  {
  }

  lemma {:induction false} PathClimbsInRight(h: HashFn, m: nat, nodes: seq<Digest>, parent: nat, k: nat, j: nat)
    requires |nodes| > 2 && k == Split(|nodes|) == 2 * j && k <= m < |nodes| && 2 * parent <= m <= 2 * parent + 1
    ensures PathClimbs(h, m, nodes, parent)
    decreases |nodes|, 0
  {
    hide NodesPath, NodesHash, LevelUp, LevelStep, SplitFrom, Split;
    LevelUpKeepsPath(h, m - k, nodes[k..], parent - j);
    var i := SplitOneLevelUp(h, nodes);
    LevelUpKeepsHash(h, nodes[..k]);
    LevelStepInRight(nodes, m, parent, j);
    NodesPathInRight(h, m, nodes, k);
    NodesPathInRight(h, parent, LevelUp(h, nodes), j);
    SameLastStep(NodesPath(h, m, nodes), NodesPath(h, m - k, nodes[k..]), LevelStep(nodes, m, parent),
                 NodesPath(h, parent, LevelUp(h, nodes)), NodesPath(h, parent - j, LevelUp(h, nodes[k..])),
                 Step(true, NodesHash(h, nodes[..k])));
  }

  lemma {:induction false} LevelUpKeepsPath(h: HashFn, m: nat, nodes: seq<Digest>, parent: nat)
    requires m < |nodes| && 2 * parent <= m <= 2 * parent + 1
    ensures PathClimbs(h, m, nodes, parent)
    decreases |nodes|, 1
  {
    if |nodes| == 2 {
      PathClimbsInPair(h, m, nodes);
    } else if |nodes| > 2 {
      var k := Split(|nodes|);
      var j := SplitOneLevelUp(h, nodes);
      if m < k {
        PathClimbsInLeft(h, m, nodes, parent, k);
      } else {
        PathClimbsInRight(h, m, nodes, parent, k, j);
      }
    }
  }

  lemma CeilLog2OneUp(n: nat, r: nat)
    requires n > 1 && 2 * r - 1 <= n <= 2 * r
    ensures CeilLog2(n) == 1 + CeilLog2(r)
  {
    assert (n + 1) / 2 == r;
  }

  lemma PathFromStep(levels: seq<seq<Digest>>, i: nat, m: nat) returns (parent: nat)
    requires i + 1 < |levels|
    ensures 2 * parent <= m <= 2 * parent + 1
    ensures PathFrom(levels, i, m) == LevelStep(levels[i], m, parent) + PathFrom(levels, i + 1, parent)
  {
    parent := m / 2;
  }

  lemma {:induction false} PathFromIsNodesPath(h: HashFn, nodes: seq<Digest>, levels: seq<seq<Digest>>, i: nat, m: nat)
    requires AreLevels(h, nodes, levels) && i < |levels| && m < |levels[i]|
    ensures PathFrom(levels, i, m) == NodesPath(h, m, levels[i])
    ensures |PathFrom(levels, i, m)| <= CeilLog2(|levels[i]|)
    decreases |levels| - i
  {
    if i + 1 < |levels| {
      var parent := PathFromStep(levels, i, m);
      CeilLog2OneUp(|levels[i]|, |LevelUp(h, levels[i])|);
      PathFromIsNodesPath(h, nodes, levels, i + 1, parent);
      LevelUpKeepsPath(h, m, levels[i], parent);
    }
  }

  lemma {:induction false} NodesPathIsAuditPath(h: HashFn, m: nat, leaves: seq<Bytes>)
    requires m < |leaves|
    ensures NodesPath(h, m, LeafHashes(h, leaves)) == AuditPath(h, m, leaves)
    decreases |leaves|
  {
    if |leaves| > 1 {
      var k := Split(|leaves|);
      var nodes := LeafHashes(h, leaves);
      assert nodes[..k] == LeafHashes(h, leaves[..k]);
      assert nodes[k..] == LeafHashes(h, leaves[k..]);
      if m < k {
        NodesPathIsAuditPath(h, m, leaves[..k]);
        NodesHashIsTreeHash(h, leaves[k..]);
      } else {
        NodesPathIsAuditPath(h, m - k, leaves[k..]);
        NodesHashIsTreeHash(h, leaves[..k]);
      }
    }
  }

  /** The path gathered from the levels is PATH(m, D[n]) and has at most ceil(log2 n) steps. */
  lemma GatheredPathIsAuditPath(h: HashFn, m: nat, leaves: seq<Bytes>, levels: seq<seq<Digest>>)
    requires m < |leaves| && AreLevels(h, LeafHashes(h, leaves), levels)
    ensures PathFrom(levels, 0, m) == AuditPath(h, m, leaves)
    ensures |AuditPath(h, m, leaves)| <= CeilLog2(|leaves|)
  {
    PathFromIsNodesPath(h, LeafHashes(h, leaves), levels, 0, m);
    NodesPathIsAuditPath(h, m, leaves);
  }

  /* ----- Completeness and soundness of verification ----- */

  lemma {:induction false} FoldPathSnoc(h: HashFn, current: Digest, path: seq<Step>, last: Step)
    ensures FoldPath(h, current, path + [last]) == StepHash(h, FoldPath(h, current, path), last)
    decreases |path|
  {
    if path == [] {
      assert (path + [last])[1..] == [];
    } else {
      FoldPathSnoc(h, StepHash(h, current, path[0]), path[1..], last);
      assert (path + [last])[1..] == path[1..] + [last];
    }
  }

  /** Every audit path folds back to the tree hash. */
  lemma {:induction false} AuditPathFolds(h: HashFn, m: nat, leaves: seq<Bytes>)
    requires m < |leaves|
    ensures FoldPath(h, LeafHash(h, leaves[m]), AuditPath(h, m, leaves)) == TreeHash(h, leaves)
    decreases |leaves|
  {
    if |leaves| > 1 {
      var k := Split(|leaves|);
      if m < k {
        AuditPathFolds(h, m, leaves[..k]);
        FoldPathSnoc(h, LeafHash(h, leaves[m]), AuditPath(h, m, leaves[..k]), Step(false, TreeHash(h, leaves[k..])));
      } else {
        AuditPathFolds(h, m - k, leaves[k..]);
        FoldPathSnoc(h, LeafHash(h, leaves[m]), AuditPath(h, m - k, leaves[k..]), Step(true, TreeHash(h, leaves[..k])));
      }
    }
  }

  function Offset(k: nat, p: Option<nat>): Option<nat> {
    if p.Some? then Some(k + p.value) else None
  }

  /** The position that the directions of a path spell out in a tree of n leaves, if any. */
  function Position(n: nat, path: seq<Step>): (pos: Option<nat>)
    requires n > 0
    ensures pos.Some? ==> pos.value < n
    decreases n
  {
    if n == 1 then (if path == [] then Some(0) else None)
    else if path == [] then None
    else
      var k := Split(n);
      var last, rest := path[|path| - 1], path[..|path| - 1];
      if last.left then Offset(k, Position(n - k, rest)) else Position(k, rest)
  }

  lemma PositionOfLast(n: nat, rest: seq<Step>, last: Step)
    requires n > 1
    ensures Position(n, rest + [last]) ==
            if last.left then Offset(Split(n), Position(n - Split(n), rest)) else Position(Split(n), rest)
  {
    assert (rest + [last])[..|rest|] == rest;
  }

  lemma SpellsInLeft(h: HashFn, m: nat, leaves: seq<Bytes>, k: nat)
    requires |leaves| > 1 && k == Split(|leaves|) && m < k
    ensures Position(|leaves|, AuditPath(h, m, leaves)) == Position(k, AuditPath(h, m, leaves[..k]))
  {
    PositionOfLast(|leaves|, AuditPath(h, m, leaves[..k]), Step(false, TreeHash(h, leaves[k..])));
  }

  lemma SpellsInRight(h: HashFn, m: nat, leaves: seq<Bytes>, k: nat)
    requires |leaves| > 1 && k == Split(|leaves|) && k <= m < |leaves|
    ensures Position(|leaves|, AuditPath(h, m, leaves)) ==
            Offset(k, Position(|leaves| - k, AuditPath(h, m - k, leaves[k..])))
  {
    PositionOfLast(|leaves|, AuditPath(h, m - k, leaves[k..]), Step(true, TreeHash(h, leaves[..k])));
  }

  lemma OneLeafSpells(h: HashFn, leaves: seq<Bytes>)
    requires |leaves| == 1
    ensures Position(1, AuditPath(h, 0, leaves)) == Some(0)
  {
  }

  /** An audit path spells out the index it was made for. */
  lemma {:induction false} AuditPathSpellsPosition(h: HashFn, m: nat, leaves: seq<Bytes>)
    requires m < |leaves|
    ensures Position(|leaves|, AuditPath(h, m, leaves)) == Some(m)
    decreases |leaves|
  {
    hide AuditPath, Position, Split, TreeHash;
    if |leaves| == 1 {
      OneLeafSpells(h, leaves);
    } else {
      var k := Split(|leaves|);
      if m < k {
        AuditPathSpellsPosition(h, m, leaves[..k]);
        SpellsInLeft(h, m, leaves, k);
      } else {
        AuditPathSpellsPosition(h, m - k, leaves[k..]);
        SpellsInRight(h, m, leaves, k);
      }
    }
  }

  /** Every byte string hashed while computing the tree hash of the leaves. */
  ghost function TreeInputs(h: HashFn, leaves: seq<Bytes>): set<Bytes> {
    if |leaves| == 0 then {[]}
    else if |leaves| == 1 then {LEAF_PREFIX + leaves[0]}
    else
      var k := Split(|leaves|);
      {NODE_PREFIX + TreeHash(h, leaves[..k]) + TreeHash(h, leaves[k..])}
      + TreeInputs(h, leaves[..k]) + TreeInputs(h, leaves[k..])
  }

  /** The byte string hashed by one step of a verification. */
  function StepInput(current: Bytes, step: Step): Bytes {
    if step.left then NODE_PREFIX + step.sibling + current else NODE_PREFIX + current + step.sibling
  }

  /** Every byte string hashed while verifying a leaf against a path. */
  ghost function VerifyInputs(h: HashFn, leaf: Bytes, path: seq<Step>): set<Bytes> {
    if path == [] then {LEAF_PREFIX + leaf}
    else
      var rest := path[..|path| - 1];
      VerifyInputs(h, leaf, rest) + {StepInput(FoldPath(h, LeafHash(h, leaf), rest), path[|path| - 1])}
  }

  /** The last byte string hashed while verifying a leaf against a path. */
  ghost function LastInput(h: HashFn, leaf: Bytes, path: seq<Step>): Bytes {
    if path == [] then LEAF_PREFIX + leaf
    else StepInput(FoldPath(h, LeafHash(h, leaf), path[..|path| - 1]), path[|path| - 1])
  }

  lemma LastInputHashes(h: HashFn, leaf: Bytes, path: seq<Step>)
    ensures h(LastInput(h, leaf, path)) == FoldPath(h, LeafHash(h, leaf), path)
    ensures LastInput(h, leaf, path) in VerifyInputs(h, leaf, path)
  {
    if path != [] {
      var rest, last := path[..|path| - 1], path[|path| - 1];
      assert path == rest + [last];
      FoldPathSnoc(h, LeafHash(h, leaf), rest, last);
    }
  }

  /** A leaf's input tells the leaf: the prefixes keep leaves and nodes apart. */
  lemma LeafInputIsLeaf(h: HashFn, leaf: Bytes, path: seq<Step>, other: Bytes)
    requires LastInput(h, leaf, path) == LEAF_PREFIX + other
    ensures path == [] && leaf == other
  {
    assert LastInput(h, leaf, path)[0] == 0;
    assert (LEAF_PREFIX + other)[1..] == other;
    assert (LEAF_PREFIX + leaf)[1..] == leaf;
  }

  /** A node's input tells its two children: the half on either side is 32 bytes long. */
  lemma NodeInputIsStep(h: HashFn, leaf: Bytes, path: seq<Step>, l: Digest, r: Digest)
    requires LastInput(h, leaf, path) == NODE_PREFIX + l + r
    ensures path != []
    ensures FoldPath(h, LeafHash(h, leaf), path[..|path| - 1]) == if path[|path| - 1].left then r else l
  {
    var x := LastInput(h, leaf, path);
    assert x[0] == 1;
    assert x[1..DIGEST_LENGTH + 1] == l && x[|x| - DIGEST_LENGTH..] == r;
    var current := FoldPath(h, LeafHash(h, leaf), path[..|path| - 1]);
    var step := path[|path| - 1];
    if step.left {
      assert (NODE_PREFIX + step.sibling + current)[|x| - DIGEST_LENGTH..] == current;
    } else {
      assert (NODE_PREFIX + current + step.sibling)[1..DIGEST_LENGTH + 1] == current;
    }
  }

  /**
   A leaf accepted with any path whatever, of any length, with any sides and with siblings of
   any size, stands in the tree where the sides say, or the verification and the tree hashed
   two different strings to the same digest; x and y are those strings.
   */
  lemma {:induction false} AcceptedMeansIncluded(h: HashFn, leaves: seq<Bytes>, leaf: Bytes, path: seq<Step>)
    returns (x: Bytes, y: Bytes)
    requires FoldPath(h, LeafHash(h, leaf), path) == TreeHash(h, leaves)
    ensures
      || (leaves != [] && Position(|leaves|, path).Some? && leaves[Position(|leaves|, path).value] == leaf)
      || (Collide(h, x, y) && x in VerifyInputs(h, leaf, path) && y in TreeInputs(h, leaves))
    decreases |leaves|
  {
    LastInputHashes(h, leaf, path);
    x := LastInput(h, leaf, path);
    if leaves == [] {
      y := [];
    } else if |leaves| == 1 {
      y := LEAF_PREFIX + leaves[0];
      if x == y {
        LeafInputIsLeaf(h, leaf, path, leaves[0]);
      }
    } else {
      var k := Split(|leaves|);
      var l, r := TreeHash(h, leaves[..k]), TreeHash(h, leaves[k..]);
      y := NODE_PREFIX + l + r;
      if x == y {
        NodeInputIsStep(h, leaf, path, l, r);
        var rest := path[..|path| - 1];
        if path[|path| - 1].left {
          x, y := AcceptedMeansIncluded(h, leaves[k..], leaf, rest);
        } else {
          x, y := AcceptedMeansIncluded(h, leaves[..k], leaf, rest);
        }
      }
    }
  }
}
