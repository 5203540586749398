/** The objects of the sandbox: a state graph and the branches over it. */
module CowGraph {
  import opened Wrappers
  import opened CowSpec

  class COWBranch {
    const branchId: string
    const parent: COWStateGraph
    const agentId: string
    const baseSnapshotHash: string
    var nodeDeltas: Deltas
    var edgeDeltas: seq<Edge>
    var status: Status
    var discardReason: Option<string>
    var executionTrace: seq<Trace>

    ghost function State(): Branch
      reads this
    {
      Branch(branchId, agentId, baseSnapshotHash, nodeDeltas, edgeDeltas, status, discardReason, executionTrace)
    }

    constructor (c: Crypto, branchId: string, parent: COWStateGraph, agentId: string)
      ensures this.parent == parent
      ensures State() == NewBranch(c, parent.State(), branchId, agentId)
    {
      this.branchId, this.parent, this.agentId := branchId, parent, agentId;
      baseSnapshotHash := MerkleRoot(c, parent.nodes, parent.edges);
      nodeDeltas, edgeDeltas, status, discardReason, executionTrace := map[], [], ACTIVE, None, [];
    }

    method GetNode(id: string) returns (r: Option<Data>)
      ensures r == BranchView(State(), parent.nodes, id)
    {
      if id in nodeDeltas {
        r := nodeDeltas[id];
      } else {
        r := parent.GetNode(id);
      }
    }

    method SetNode(id: string, data: Data, now: real) returns (r: Result<(), EditError>)
      modifies this
      ensures Edited(old(State()), State(), EditNode(old(State()), id, Some(data), now), r)
    {
      if status != ACTIVE {
        return Err(NotActive(status));
      }
      nodeDeltas := nodeDeltas[id := Some(data)];
      executionTrace := executionTrace + [Trace("SET_NODE", id, now)];
      r := Ok(());
    }

    method DeleteNode(id: string, now: real) returns (r: Result<(), EditError>)
      modifies this
      ensures Edited(old(State()), State(), EditNode(old(State()), id, None, now), r)
    {
      if status != ACTIVE {
        return Err(NotActive(status));
      }
      nodeDeltas := nodeDeltas[id := None];
      executionTrace := executionTrace + [Trace("DELETE_NODE", id, now)];
      r := Ok(());
    }

    method AddEdge(source: string, target: string, relationship: string, metadata: Option<Data>, now: real)
      returns (r: Result<(), EditError>)
      modifies this
      ensures Edited(old(State()), State(),
                     CowSpec.AddEdge(old(State()), NewEdge(source, target, relationship, metadata, now)), r)
    {
      if status != ACTIVE {
        return Err(NotActive(status));
      }
      var record := NewEdge(source, target, relationship, metadata, now);
      edgeDeltas := edgeDeltas + [record];
      executionTrace := executionTrace + [Trace("ADD_EDGE", record.edgeId, now)];
      r := Ok(());
    }

    method ComputeDeltaHash(c: Crypto) returns (hash: string)
      ensures hash == DeltaHash(c, State())
    {
      hash := c.deltaDigest(branchId, baseSnapshotHash, nodeDeltas, edgeDeltas);
    }
  }

  /** An edit either goes through, or leaves the branch as it was and reports why. */
  ghost predicate Edited(before: Branch, after: Branch, outcome: Result<Branch, EditError>, r: Result<(), EditError>) {
    match outcome
    case Ok(b) => r == Ok(()) && after == b
    case Err(e) => r == Err(e) && after == before
  }

  /** Writing one more delta. */
  lemma OverlayOneMore(nodes: Nodes, deltas: Deltas, rest: set<string>, id: string)
    requires id in rest && rest <= deltas.Keys
    ensures var done := Overlay(nodes, deltas - rest);
            Overlay(nodes, deltas - (rest - {id})) ==
            match deltas[id] case None => done - {id} case Some(data) => done[id := data]
  {
  }

  class COWStateGraph {
    var nodes: Nodes
    var edges: seq<Edge>
    var commitHistory: seq<Commit>
    var activeBranches: map<string, COWBranch>

    ghost function State(): Graph
      reads this
    {
      Graph(nodes, edges, commitHistory)
    }

    constructor (initialNodes: Nodes)
      ensures State() == Graph(initialNodes, [], []) && activeBranches == map[]
    {
      nodes, edges, commitHistory, activeBranches := initialNodes, [], [], map[];
    }

    method GetNode(id: string) returns (r: Option<Data>)
      ensures r == GraphView(nodes, id)
    {
      if id in nodes {
        r := Some(nodes[id]);
      } else {
        r := None;
      }
    }

    method Fork(c: Crypto, branchId: string, agentId: string) returns (branch: COWBranch)
      modifies this
      ensures fresh(branch) && branch.parent == this
      ensures branch.State() == NewBranch(c, old(State()), branchId, agentId)
      ensures State() == old(State()) && activeBranches == old(activeBranches)[branchId := branch]
    {
      branch := new COWBranch(c, branchId, this, agentId);
      activeBranches := activeBranches[branchId := branch];
    }

    method DiscardBranch(branch: COWBranch, reason: string)
      modifies this`activeBranches, branch
      ensures branch.State() == Discard(old(branch.State()), reason)
      ensures activeBranches == old(activeBranches) - {branch.branchId}
    {
      branch.status := DISCARDED;
      branch.discardReason := Some(reason);
      activeBranches := activeBranches - {branch.branchId};
    }

    /** The checks, in the order of the first part of merge_if_verified; nothing is changed. */
    method Examine(c: Crypto, branch: COWBranch, receipt: Receipt, notaryKey: Option<string>)
      returns (refusal: Option<Refusal>)
      ensures refusal == Refuse(c, branch.State(), receipt, notaryKey)
    {
      if branch.status != ACTIVE {
        return Some(BranchNotActive);
      }
      if receipt.signature.None? {
        return Some(MissingSignature);
      }
      var signature := c.decode(receipt.signature.value);
      if signature.None? {
        return Some(BadSignature);
      }
      if receipt.payload.None? {
        return Some(MalformedPayload);
      }
      var payload := receipt.payload.value;
      var disposition := Or(payload.disposition, payload.status);
      if disposition.None? || disposition.value !in CONFIRMATIONS {
        return Some(NotConfirmed);
      }
      var deltaHash := branch.ComputeDeltaHash(c);
      var bound := Or(payload.deltaHash, payload.branchDeltaHash);
      if bound.Some? && bound.value != deltaHash {
        return Some(DeltaMismatch);
      }
      var key := notaryKey;
      if key.None? {
        key := receipt.publicKeyHex;
      }
      if key.None? {
        return Some(MissingKey);
      }
      refusal := if c.verify(key.value, signature.value, payload) then None else Some(BadSignature);
    }

    method MergeIfVerified(c: Crypto, branch: COWBranch, receipt: Receipt, notaryKey: Option<string>,
                           reason: string, commitId: string, now: real)
      returns (refusal: Option<Refusal>)
      modifies this, branch
      ensures refusal == Refuse(c, old(branch.State()), receipt, notaryKey)
      ensures refusal.Some? ==> State() == old(State())
      ensures refusal.Some? ==> branch.State() == RefusedBranch(old(branch.State()), refusal.value, reason)
      ensures refusal.None? ==> State() == MergedGraph(c, old(State()), old(branch.State()), receipt, commitId, now)
      ensures refusal.None? ==> branch.State() == old(branch.State()).(status := MERGED)
      ensures activeBranches == if refusal == Some(BranchNotActive) then old(activeBranches)
                                else old(activeBranches) - {branch.branchId}
    {
      refusal := Examine(c, branch, receipt, notaryKey);
      if refusal == Some(BranchNotActive) {
        return;
      }
      if refusal.Some? {
        DiscardBranch(branch, reason);
        return;
      }
      var deltaHash := branch.ComputeDeltaHash(c);
      ApplyNodes(branch.nodeDeltas);
      ApplyEdges(branch.edgeDeltas);
      branch.status := MERGED;
      commitHistory := commitHistory + [Commit(commitId, branch.branchId, deltaHash, c.receiptDigest(receipt),
                                               MerkleRoot(c, nodes, edges), now)];
      activeBranches := activeBranches - {branch.branchId};
    }

    /** The loop over the node deltas, whichever order the keys come in. */
    method ApplyNodes(deltas: Deltas)
      modifies this`nodes
      ensures nodes == Overlay(old(nodes), deltas)
    {
      var rest := deltas.Keys;
      assert deltas - rest == map[];
      assert Overlay(nodes, map[]) == nodes;
      while rest != {}
        invariant rest <= deltas.Keys
        invariant nodes == Overlay(old(nodes), deltas - rest)
        decreases |rest|
      {
        var id :| id in rest;
        if deltas[id].None? {
          nodes := nodes - {id};
        } else {
          nodes := nodes[id := deltas[id].value];
        }
        OverlayOneMore(old(nodes), deltas, rest, id);
        rest := rest - {id};
      }
      assert deltas - rest == deltas;
    }

    method ApplyEdges(deltas: seq<Edge>)
      modifies this`edges
      ensures edges == old(edges) + deltas
    {
      for i := 0 to |deltas|
        invariant edges == old(edges) + deltas[..i]
      {
        edges := edges + [deltas[i]];
      }
    }
  }
}
