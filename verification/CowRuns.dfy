/** Whole runs of the sandbox: forks, branch edits, merges and discards in any order. */
module CowRuns {
  import opened Wrappers
  import opened CowSpec
  import opened CowGraph
  import Sequences

  /** A graph, every branch ever forked from it, and a ghost record of which were merged, in order. */
  datatype World = World(graph: Graph, branches: seq<Branch>, merged: seq<nat>)

  datatype Action =
    | Fork(branchId: string, agentId: string)
    | Edit(branch: nat, id: string, delta: Option<Data>, now: real)
    | Link(branch: nat, source: string, target: string, relationship: string, metadata: Option<Data>, now: real)
    | Merge(branch: nat, receipt: Receipt, notaryKey: Option<string>, reason: string, commitId: string, now: real)
    | Drop(branch: nat, reason: string)

  function Start(nodes: Nodes): World {
    World(Graph(nodes, [], []), [], [])
  }

  function Put(w: World, i: nat, b: Branch): World
    requires i < |w.branches|
  {
    w.(branches := w.branches[i := b])
  }

  function Settle(w: World, i: nat, r: Result<Branch, EditError>): World
    requires i < |w.branches|
  {
    if r.Ok? then Put(w, i, r.value) else w
  }

  /** One call; a call on a branch that does not exist does nothing. */
  function Next(c: Crypto, w: World, a: Action): World {
    if a.Fork? then w.(branches := w.branches + [NewBranch(c, w.graph, a.branchId, a.agentId)])
    else if a.branch >= |w.branches| then w
    else
      var b := w.branches[a.branch];
      match a
      case Edit(i, id, delta, now) => Settle(w, i, EditNode(b, id, delta, now))
      case Link(i, source, target, relationship, metadata, now) =>
        Settle(w, i, AddEdge(b, NewEdge(source, target, relationship, metadata, now)))
      case Merge(i, r, key, reason, commitId, now) =>
        var refusal := Refuse(c, b, r, key);
        if refusal.Some? then Put(w, i, RefusedBranch(b, refusal.value, reason))
        else World(MergedGraph(c, w.graph, b, r, commitId, now), w.branches[i := b.(status := MERGED)], w.merged + [i])
      case Drop(i, reason) => Put(w, i, Discard(b, reason))
  }

  function Run(c: Crypto, w: World, actions: seq<Action>): World
    decreases |actions|
  {
    if actions == [] then w else Next(c, Run(c, w, actions[..|actions| - 1]), actions[|actions| - 1])
  }

  /* ----- The objects take these steps ----- */

  ghost predicate Shows(graph: COWStateGraph, objects: seq<COWBranch>, w: World)
    reads graph, objects
  {
    && graph.State() == w.graph && |objects| == |w.branches|
    && (forall i :: 0 <= i < |objects| ==> objects[i].State() == w.branches[i])
    && (forall i, j :: 0 <= i < j < |objects| ==> objects[i] != objects[j])
  }

  method PerformEdit(c: Crypto, graph: COWStateGraph, objects: seq<COWBranch>, ghost w: World, a: Action)
    requires Shows(graph, objects, w) && a.Edit? && a.branch < |objects|
    modifies graph, objects
    ensures Shows(graph, objects, Next(c, w, a))
  {
    match a.delta
    case Some(data) => var _ := objects[a.branch].SetNode(a.id, data, a.now);
    case None => var _ := objects[a.branch].DeleteNode(a.id, a.now);
  }

  method PerformLink(c: Crypto, graph: COWStateGraph, objects: seq<COWBranch>, ghost w: World, a: Action)
    requires Shows(graph, objects, w) && a.Link? && a.branch < |objects|
    modifies graph, objects
    ensures Shows(graph, objects, Next(c, w, a))
  {
    var _ := objects[a.branch].AddEdge(a.source, a.target, a.relationship, a.metadata, a.now);
  }

  method PerformMerge(c: Crypto, graph: COWStateGraph, objects: seq<COWBranch>, ghost w: World, a: Action)
    requires Shows(graph, objects, w) && a.Merge? && a.branch < |objects|
    modifies graph, objects
    ensures Shows(graph, objects, Next(c, w, a))
  {
    var _ := graph.MergeIfVerified(c, objects[a.branch], a.receipt, a.notaryKey, a.reason, a.commitId, a.now);
  }

  method PerformDrop(c: Crypto, graph: COWStateGraph, objects: seq<COWBranch>, ghost w: World, a: Action)
    requires Shows(graph, objects, w) && a.Drop? && a.branch < |objects|
    modifies graph, objects
    ensures Shows(graph, objects, Next(c, w, a))
  {
    graph.DiscardBranch(objects[a.branch], a.reason);
  }

  /** One call on the objects is one step of the run; a fork adds an object. */
  method Perform(c: Crypto, graph: COWStateGraph, objects: seq<COWBranch>, ghost w: World, a: Action)
    returns (objects': seq<COWBranch>)
    requires Shows(graph, objects, w)
    modifies graph, objects
    ensures Shows(graph, objects', Next(c, w, a))
    ensures objects <= objects'
  {
    objects' := objects;
    match a {
      case Fork(branchId, agentId) =>
        var branch := graph.Fork(c, branchId, agentId);
        objects' := objects + [branch];
      case Edit(i, _, _, _) => if i < |objects| { PerformEdit(c, graph, objects, w, a); }
      case Link(i, _, _, _, _, _) => if i < |objects| { PerformLink(c, graph, objects, w, a); }
      case Merge(i, _, _, _, _, _) => if i < |objects| { PerformMerge(c, graph, objects, w, a); }
      case Drop(i, _) => if i < |objects| { PerformDrop(c, graph, objects, w, a); }
    }
  }

  /* ----- Replay ----- */

  ghost predicate InRange(branches: seq<Branch>, merged: seq<nat>) {
    forall k :: 0 <= k < |merged| ==> merged[k] < |branches|
  }

  /** The deltas of the merged branches, written over the first nodes in commit order. */
  ghost function ReplayNodes(init: Nodes, branches: seq<Branch>, merged: seq<nat>): Nodes
    requires InRange(branches, merged)
    decreases |merged|
  {
    if merged == [] then init
    else
      var last := |merged| - 1;
      Overlay(ReplayNodes(init, branches, merged[..last]), branches[merged[last]].nodeDeltas)
  }

  ghost function ReplayEdges(branches: seq<Branch>, merged: seq<nat>): seq<Edge>
    requires InRange(branches, merged)
    decreases |merged|
  {
    if merged == [] then []
    else
      var last := |merged| - 1;
      ReplayEdges(branches, merged[..last]) + branches[merged[last]].edgeDeltas
  }

  ghost function ReplayRoot(c: Crypto, init: Nodes, branches: seq<Branch>, merged: seq<nat>): string
    requires InRange(branches, merged)
  {
    MerkleRoot(c, ReplayNodes(init, branches, merged), ReplayEdges(branches, merged))
  }

  /** Every branch is committed at most once and is closed from then on. */
  ghost predicate CommittedOnce(w: World) {
    && InRange(w.branches, w.merged)
    && (forall k :: 0 <= k < |w.merged| ==> w.branches[w.merged[k]].status != ACTIVE)
    && (forall k, l :: 0 <= k < l < |w.merged| ==> w.merged[k] != w.merged[l])
  }

  ghost predicate GraphIsReplay(init: Nodes, w: World)
    requires InRange(w.branches, w.merged)
  {
    && w.graph.nodes == ReplayNodes(init, w.branches, w.merged)
    && w.graph.edges == ReplayEdges(w.branches, w.merged)
  }

  /** A commit names its branch, the branch's delta, and the root of the replay up to and with it. */
  ghost predicate CommitAt(c: Crypto, init: Nodes, w: World, k: nat)
    requires InRange(w.branches, w.merged) && k < |w.merged| == |w.graph.history|
  {
    var entry, b := w.graph.history[k], w.branches[w.merged[k]];
    && entry.branchId == b.branchId
    && entry.deltaHash == DeltaHash(c, b)
    && entry.newMerkleRoot == ReplayRoot(c, init, w.branches, w.merged[..k + 1])
  }

  ghost predicate HistoryIsReplay(c: Crypto, init: Nodes, w: World)
    requires InRange(w.branches, w.merged)
  {
    && |w.graph.history| == |w.merged|
    && forall k :: 0 <= k < |w.merged| ==> CommitAt(c, init, w, k)
  }

  ghost predicate Faithful(c: Crypto, init: Nodes, w: World) {
    CommittedOnce(w) && GraphIsReplay(init, w) && HistoryIsReplay(c, init, w)
  }

  /* ----- Frames ----- */

  /** A branch's name and deltas, which is all that a commit depends on. */
  ghost predicate SameWork(b: Branch, b': Branch) {
    && b.branchId == b'.branchId && b.baseSnapshotHash == b'.baseSnapshotHash
    && b.nodeDeltas == b'.nodeDeltas && b.edgeDeltas == b'.edgeDeltas
  }

  ghost predicate MergedKept(branches: seq<Branch>, branches': seq<Branch>, merged: seq<nat>)
    requires InRange(branches, merged) && InRange(branches', merged)
  {
    forall k :: 0 <= k < |merged| ==> SameWork(branches[merged[k]], branches'[merged[k]])
  }

  lemma {:induction false} ReplayKept(init: Nodes, branches: seq<Branch>, branches': seq<Branch>, merged: seq<nat>)
    requires InRange(branches, merged) && InRange(branches', merged) && MergedKept(branches, branches', merged)
    ensures ReplayNodes(init, branches, merged) == ReplayNodes(init, branches', merged)
    ensures ReplayEdges(branches, merged) == ReplayEdges(branches', merged)
    decreases |merged|
  {
    if merged != [] {
      var last := |merged| - 1;
      assert SameWork(branches[merged[last]], branches'[merged[last]]);
      assert MergedKept(branches, branches', merged[..last]);
      ReplayKept(init, branches, branches', merged[..last]);
    }
  }

  /** A step that commits nothing and leaves the work of every merged branch alone keeps the replay. */
  lemma FaithfulKept(c: Crypto, init: Nodes, w: World, w': World)
    requires Faithful(c, init, w) && w'.graph == w.graph && w'.merged == w.merged
    requires CommittedOnce(w') && MergedKept(w.branches, w'.branches, w.merged)
    ensures Faithful(c, init, w')
  {
    ReplayKept(init, w.branches, w'.branches, w.merged);
    forall k | 0 <= k < |w.merged| ensures CommitAt(c, init, w', k) {
      assert CommitAt(c, init, w, k) && SameWork(w.branches[w.merged[k]], w'.branches[w.merged[k]]);
      assert MergedKept(w.branches, w'.branches, w.merged[..k + 1]);
      ReplayKept(init, w.branches, w'.branches, w.merged[..k + 1]);
    }
  }

  /** Closing a branch or editing an active one is such a step. */
  lemma PutKeeps(c: Crypto, init: Nodes, w: World, i: nat, b: Branch)
    requires Faithful(c, init, w) && i < |w.branches|
    requires w.branches[i].status == ACTIVE || (b.status != ACTIVE && SameWork(w.branches[i], b))
    ensures Faithful(c, init, Put(w, i, b))
  {
    FaithfulKept(c, init, w, Put(w, i, b));
  }

  /** Committing the work of a branch that is closed and was not merged before. */
  function Committed(c: Crypto, w: World, i: nat, r: Receipt, commitId: string, now: real): World
    requires i < |w.branches|
  {
    w.(graph := MergedGraph(c, w.graph, w.branches[i], r, commitId, now), merged := w.merged + [i])
  }

  lemma CommitExtendsReplay(init: Nodes, branches: seq<Branch>, merged: seq<nat>, i: nat)
    requires InRange(branches, merged) && i < |branches|
    ensures InRange(branches, merged + [i])
    ensures ReplayNodes(init, branches, merged + [i]) == Overlay(ReplayNodes(init, branches, merged), branches[i].nodeDeltas)
    ensures ReplayEdges(branches, merged + [i]) == ReplayEdges(branches, merged) + branches[i].edgeDeltas
    ensures (merged + [i])[..|merged| + 1] == merged + [i]
    ensures forall k :: 0 <= k <= |merged| ==> (merged + [i])[..k] == merged[..k]
  {
    assert (merged + [i])[..|merged|] == merged;
  }

  lemma GraphOfCommit(c: Crypto, init: Nodes, w: World, i: nat, r: Receipt, commitId: string, now: real)
    requires CommittedOnce(w) && GraphIsReplay(init, w)
    requires i < |w.branches| && w.branches[i].status != ACTIVE && i !in w.merged
    ensures CommittedOnce(Committed(c, w, i, r, commitId, now))
    ensures GraphIsReplay(init, Committed(c, w, i, r, commitId, now))
  {
    CommitExtendsReplay(init, w.branches, w.merged, i);
  }

  lemma EarlierCommitsStay(c: Crypto, init: Nodes, w: World, i: nat, r: Receipt, commitId: string, now: real, k: nat)
    requires InRange(w.branches, w.merged) && i < |w.branches|
    requires k < |w.merged| == |w.graph.history| && CommitAt(c, init, w, k)
    ensures InRange(w.branches, Committed(c, w, i, r, commitId, now).merged)
    ensures CommitAt(c, init, Committed(c, w, i, r, commitId, now), k)
  {
    hide ReplayNodes, ReplayEdges, Overlay, SortEdges;
    CommitExtendsReplay(init, w.branches, w.merged, i);
  }

  lemma LastCommit(c: Crypto, init: Nodes, w: World, i: nat, r: Receipt, commitId: string, now: real)
    requires InRange(w.branches, w.merged) && GraphIsReplay(init, w) && i < |w.branches|
    requires |w.merged| == |w.graph.history|
    ensures InRange(w.branches, Committed(c, w, i, r, commitId, now).merged)
    ensures CommitAt(c, init, Committed(c, w, i, r, commitId, now), |w.merged|)
  {
    hide ReplayNodes, ReplayEdges, Overlay, SortEdges;
    CommitExtendsReplay(init, w.branches, w.merged, i);
    MergeRecords(c, w.graph, w.branches[i], r, commitId, now);
  }

  lemma MergeOfClosedKeeps(c: Crypto, init: Nodes, w: World, i: nat, r: Receipt, commitId: string, now: real)
    requires Faithful(c, init, w) && i < |w.branches| && w.branches[i].status != ACTIVE && i !in w.merged
    ensures Faithful(c, init, Committed(c, w, i, r, commitId, now))
  {
    hide ReplayNodes, ReplayEdges, Overlay, CommitAt, GraphIsReplay, DeltaHash, MerkleRoot;
    var w' := Committed(c, w, i, r, commitId, now);
    GraphOfCommit(c, init, w, i, r, commitId, now);
    forall k | 0 <= k < |w.merged| ensures CommitAt(c, init, w', k) {
      EarlierCommitsStay(c, init, w, i, r, commitId, now, k);
    }
    LastCommit(c, init, w, i, r, commitId, now);
  }

  lemma MergeKeeps(c: Crypto, init: Nodes, w: World, a: Action)
    requires Faithful(c, init, w) && a.Merge? && a.branch < |w.branches|
    requires Refuse(c, w.branches[a.branch], a.receipt, a.notaryKey) == None
    ensures Faithful(c, init, Next(c, w, a))
  {
    var i, b, w' := a.branch, w.branches[a.branch], Next(c, w, a);
    PutKeeps(c, init, w, i, b.(status := MERGED));
    MergeOfClosedKeeps(c, init, Put(w, i, b.(status := MERGED)), i, a.receipt, a.commitId, a.now);
  }

  lemma NextKeeps(c: Crypto, init: Nodes, w: World, a: Action)
    requires Faithful(c, init, w)
    ensures Faithful(c, init, Next(c, w, a))
  {
    if a.Fork? {
      FaithfulKept(c, init, w, Next(c, w, a));
    } else if a.branch < |w.branches| {
      var b := w.branches[a.branch];
      match a
      case Edit(i, id, delta, now) =>
        if b.status == ACTIVE {
          PutKeeps(c, init, w, i, EditNode(b, id, delta, now).value);
        }
      case Link(i, source, target, relationship, metadata, now) =>
        if b.status == ACTIVE {
          PutKeeps(c, init, w, i, AddEdge(b, NewEdge(source, target, relationship, metadata, now)).value);
        }
      case Merge(i, r, key, reason, _, _) =>
        var refusal := Refuse(c, b, r, key);
        if refusal.None? {
          MergeKeeps(c, init, w, a);
        } else if b.status == ACTIVE {
          PutKeeps(c, init, w, i, RefusedBranch(b, refusal.value, reason));
        } else {
          PutKeeps(c, init, w, i, b);
        }
      case Drop(i, reason) => PutKeeps(c, init, w, i, Discard(b, reason));
    }
  }

  /* ----- Main results ----- */

  /**
   After any calls, the graph is the replay of the merged branches in commit order, every commit
   carries the root of its prefix of that replay, and no branch was committed twice.
   */
  lemma {:induction false} RunIsReplay(c: Crypto, init: Nodes, actions: seq<Action>)
    ensures Faithful(c, init, Run(c, Start(init), actions))
    decreases |actions|
  {
    if actions != [] {
      RunIsReplay(c, init, actions[..|actions| - 1]);
      NextKeeps(c, init, Run(c, Start(init), actions[..|actions| - 1]), actions[|actions| - 1]);
    }
  }

  /** The graph moves only when a merge goes through, and then every node reads as the branch read it. */
  lemma OnlyMergesShow(c: Crypto, w: World, a: Action)
    ensures var w' := Next(c, w, a);
            if a.Merge? && a.branch < |w.branches| && Refuse(c, w.branches[a.branch], a.receipt, a.notaryKey) == None
            then forall id :: GraphView(w'.graph.nodes, id) == BranchView(w.branches[a.branch], w.graph.nodes, id)
            else w'.graph == w.graph && w'.merged == w.merged
  {
    if a.Merge? && a.branch < |w.branches| && Refuse(c, w.branches[a.branch], a.receipt, a.notaryKey) == None {
      forall id ensures GraphView(Next(c, w, a).graph.nodes, id) == BranchView(w.branches[a.branch], w.graph.nodes, id) {
        MergeShowsTheBranch(w.graph, w.branches[a.branch], id);
      }
    }
  }

  /**
   A branch that has been closed stays closed, with the same work, in whatever follows; all that
   may still change is that a merged branch is relabelled as discarded.
   */
  lemma {:induction false} ClosedForGood(c: Crypto, w: World, actions: seq<Action>, i: nat)
    requires i < |w.branches| && w.branches[i].status != ACTIVE
    ensures var w' := Run(c, w, actions);
            && i < |w'.branches| && w'.branches[i].status in {w.branches[i].status, DISCARDED}
            && SameWork(w.branches[i], w'.branches[i])
    decreases |actions|
  {
    if actions != [] {
      ClosedForGood(c, w, actions[..|actions| - 1], i);
    }
  }

  /* ----- What a branch shows ----- */

  /** The last edit of a node on branch i among some calls. */
  function LastEdit(actions: seq<Action>, i: nat, id: string): Option<Option<Data>>
    decreases |actions|
  {
    if actions == [] then None
    else
      var last := actions[|actions| - 1];
      if last.Edit? && last.branch == i && last.id == id then Some(last.delta)
      else LastEdit(actions[..|actions| - 1], i, id)
  }

  /** The edges added to branch i by some calls, oldest first. */
  function EdgesAdded(actions: seq<Action>, i: nat): seq<Edge>
    decreases |actions|
  {
    if actions == [] then []
    else
      var last, front := actions[|actions| - 1], EdgesAdded(actions[..|actions| - 1], i);
      if last.Link? && last.branch == i then
        var id := "edge:" + last.source + "->" + last.target + ":" + last.relationship;
        var data := if last.metadata.Some? then last.metadata.value else Data("{}");
        front + [Edge(id, last.source, last.target, last.relationship, data, last.now)]
      else front
  }

  /** A branch that is active now was active before. */
  lemma WasActive(c: Crypto, w: World, a: Action, i: nat)
    requires i < |w.branches| && Next(c, w, a).branches[i].status == ACTIVE
    ensures w.branches[i].status == ACTIVE
  {
  }

  /** One call changes what a branch says about a node only by editing that node on that branch. */
  lemma StepShowsEdit(c: Crypto, w: World, a: Action, i: nat, id: string)
    requires i < |w.branches| && Next(c, w, a).branches[i].status == ACTIVE
    ensures var edited := a.Edit? && a.branch == i && a.id == id;
            DeltaOf(Next(c, w, a).branches[i], id) == if edited then Some(a.delta) else DeltaOf(w.branches[i], id)
  {
    WasActive(c, w, a, i);
  }

  /** Over any calls an active branch says of every node what its last edit said, and before that what it said at first. */
  lemma {:induction false} ActiveBranchSays(c: Crypto, w: World, actions: seq<Action>, i: nat, id: string)
    requires i < |w.branches| && i < |Run(c, w, actions).branches| && Run(c, w, actions).branches[i].status == ACTIVE
    ensures var said := LastEdit(actions, i, id);
            DeltaOf(Run(c, w, actions).branches[i], id) == if said.Some? then said else DeltaOf(w.branches[i], id)
    decreases |actions|
  {
    if actions != [] {
      var front, last := actions[..|actions| - 1], actions[|actions| - 1];
      BranchesStay(c, w, front);
      WasActive(c, Run(c, w, front), last, i);
      ActiveBranchSays(c, w, front, i, id);
      StepShowsEdit(c, Run(c, w, front), last, i, id);
    }
  }

  lemma {:induction false} BranchesStay(c: Crypto, w: World, actions: seq<Action>)
    ensures |w.branches| <= |Run(c, w, actions).branches|
    decreases |actions|
  {
    if actions != [] {
      BranchesStay(c, w, actions[..|actions| - 1]);
    }
  }

  lemma StepAddsEdge(c: Crypto, w: World, a: Action, i: nat)
    requires i < |w.branches| && Next(c, w, a).branches[i].status == ACTIVE
    ensures Next(c, w, a).branches[i].edgeDeltas == w.branches[i].edgeDeltas + EdgesAdded([a], i)
  {
    WasActive(c, w, a, i);
    assert EdgesAdded([a][..0], i) == [];
  }

  lemma {:induction false} ActiveBranchHolds(c: Crypto, w: World, actions: seq<Action>, i: nat)
    requires i < |w.branches| && i < |Run(c, w, actions).branches| && Run(c, w, actions).branches[i].status == ACTIVE
    ensures Run(c, w, actions).branches[i].edgeDeltas == w.branches[i].edgeDeltas + EdgesAdded(actions, i)
    decreases |actions|
  {
    if actions != [] {
      var front, last := actions[..|actions| - 1], actions[|actions| - 1];
      BranchesStay(c, w, front);
      WasActive(c, Run(c, w, front), last, i);
      ActiveBranchHolds(c, w, front, i);
      StepAddsEdge(c, Run(c, w, front), last, i);
      assert [last][..0] == [];
    }
  }

  /**
   After a merge the graph shows the branch's last edit of every node, and what it showed before
   of every node that the branch never edited; its edges are those before and the branch's own.
   */
  lemma MergeShowsLastEdits(c: Crypto, w: World, fork: Action, actions: seq<Action>, merge: Action, id: string)
    requires fork.Fork? && merge.Merge? && merge.branch == |w.branches|
    requires var s := Run(c, Next(c, w, fork), actions);
             merge.branch < |s.branches| && Refuse(c, s.branches[merge.branch], merge.receipt, merge.notaryKey) == None
    ensures var s := Run(c, Next(c, w, fork), actions);
            var s', said := Next(c, s, merge), LastEdit(actions, merge.branch, id);
            && GraphView(s'.graph.nodes, id) == (if said.Some? then said.value else GraphView(s.graph.nodes, id))
            && s'.graph.edges == s.graph.edges + EdgesAdded(actions, merge.branch)
  {
    var w1 := Next(c, w, fork);
    var s := Run(c, w1, actions);
    NewBranchReadsAsParent(c, w.graph, fork.branchId, fork.agentId, s.graph.nodes, id);
    ActiveBranchSays(c, w1, actions, merge.branch, id);
    ActiveBranchHolds(c, w1, actions, merge.branch);
    MergeShowsTheBranch(s.graph, s.branches[merge.branch], id);
  }

  /** A merge is tried once: accepted or not, it leaves no branch active, and a refused one is discarded with its reason. */
  lemma AttemptCloses(c: Crypto, w: World, a: Action)
    requires a.Merge? && a.branch < |w.branches| && w.branches[a.branch].status == ACTIVE
    ensures var b, w' := w.branches[a.branch], Next(c, w, a);
            w'.branches[a.branch] ==
            if Refuse(c, b, a.receipt, a.notaryKey) == None then b.(status := MERGED)
            else b.(status := DISCARDED, discardReason := Some(a.reason))
  {
  }

  /** A discard does relabel a merged branch, although its work stays in the graph. */
  lemma DiscardRelabels(c: Crypto, w: World, i: nat, reason: string)
    requires i < |w.branches| && w.branches[i].status == MERGED
    ensures var w' := Next(c, w, Drop(i, reason));
            && w'.branches[i] == w.branches[i].(status := DISCARDED, discardReason := Some(reason))
            && w'.graph == w.graph && w'.merged == w.merged
  {
  }

  /** A signed confirmation that names no delta hash merges any active branch, whatever it holds. */
  lemma HashlessReceiptMerges(c: Crypto, w: World, i: nat, signature: string, rest: string, key: string, now: real)
    requires i < |w.branches| && w.branches[i].status == ACTIVE && c.decode(signature).Some?
    requires c.verify(key, c.decode(signature).value, Payload(Some("CONFIRMED"), None, None, None, rest))
    ensures var r := Receipt(Some(signature), Some(Payload(Some("CONFIRMED"), None, None, None, rest)), None);
            var w' := Next(c, w, Merge(i, r, Some(key), "", "", now));
            && NamedHash(r) == None && Refuse(c, w.branches[i], r, Some(key)) == None
            && w'.graph == MergedGraph(c, w.graph, w.branches[i], r, "", now) && w'.merged == w.merged + [i]
  {
    assert "CONFIRMED" in CONFIRMATIONS;
  }

  /* ----- The order of commits ----- */

  ghost predicate Disjoint(branches: seq<Branch>, merged: seq<nat>)
    requires InRange(branches, merged)
  {
    forall i, j :: i in merged && j in merged && i != j ==> branches[i].nodeDeltas.Keys !! branches[j].nodeDeltas.Keys
  }

  /** With disjoint deltas every node shows what the one branch that wrote it wrote. */
  lemma {:induction false} ReplayShows(init: Nodes, branches: seq<Branch>, merged: seq<nat>, id: string)
    requires InRange(branches, merged) && Disjoint(branches, merged)
    ensures (forall i :: i in merged ==> id !in branches[i].nodeDeltas) ==>
              GraphView(ReplayNodes(init, branches, merged), id) == GraphView(init, id)
    ensures forall i :: i in merged && id in branches[i].nodeDeltas ==>
              GraphView(ReplayNodes(init, branches, merged), id) == branches[i].nodeDeltas[id]
    decreases |merged|
  {
    if merged != [] {
      var last := |merged| - 1;
      assert merged == merged[..last] + [merged[last]];
      ReplayShows(init, branches, merged[..last], id);
    }
  }

  lemma SameNodes(init: Nodes, branches: seq<Branch>, merged: seq<nat>, merged': seq<nat>)
    requires InRange(branches, merged) && InRange(branches, merged') && Disjoint(branches, merged)
    requires forall i :: i in merged <==> i in merged'
    ensures ReplayNodes(init, branches, merged) == ReplayNodes(init, branches, merged')
  {
    var one, two := ReplayNodes(init, branches, merged), ReplayNodes(init, branches, merged');
    forall id ensures GraphView(one, id) == GraphView(two, id) {
      ReplayShows(init, branches, merged, id);
      ReplayShows(init, branches, merged', id);
    }
    assert forall id :: GraphView(one, id) == GraphView(two, id);
    SameViews(one, two);
  }

  lemma SameViews(one: Nodes, two: Nodes)
    requires forall id :: GraphView(one, id) == GraphView(two, id)
    ensures one == two
  {
    forall id ensures id in one <==> id in two {
      assert GraphView(one, id) == GraphView(two, id);
    }
    forall id | id in one ensures one[id] == two[id] {
      assert GraphView(one, id) == GraphView(two, id);
    }
  }

  lemma StillInRange(branches: seq<Branch>, a: seq<nat>, i: nat, b: seq<nat>)
    requires InRange(branches, a + [i] + b)
    ensures InRange(branches, a + b) && (b != [] ==> InRange(branches, a + [i] + b[..|b| - 1]))
  {
    var all := a + [i] + b;
    assert forall k :: 0 <= k < |a + b| ==> (a + b)[k] == all[if k < |a| then k else k + 1];
    if b != [] {
      assert a + [i] + b[..|b| - 1] == all[..|all| - 1];
    }
  }

  lemma {:induction false} EdgesFromMiddle(branches: seq<Branch>, a: seq<nat>, i: nat, b: seq<nat>)
    requires i < |branches| && InRange(branches, a + [i] + b)
    ensures InRange(branches, a + b)
    ensures multiset(ReplayEdges(branches, a + [i] + b)) ==
            multiset(ReplayEdges(branches, a + b)) + multiset(branches[i].edgeDeltas)
    decreases |b|
  {
    Sequences.LastOfMiddle(a, i, b);
    StillInRange(branches, a, i, b);
    if b != [] {
      EdgesFromMiddle(branches, a, i, b[..|b| - 1]);
    }
  }

  lemma {:induction false} SameEdges(branches: seq<Branch>, merged: seq<nat>, merged': seq<nat>)
    requires InRange(branches, merged) && InRange(branches, merged') && multiset(merged) == multiset(merged')
    ensures multiset(ReplayEdges(branches, merged)) == multiset(ReplayEdges(branches, merged'))
    decreases |merged|
  {
    assert |merged| == |multiset(merged)| == |merged'|;
    if merged != [] {
      var last := |merged| - 1;
      var i, rest := merged[last], merged[..last];
      assert merged == rest + [i] && rest + [i] + [] == merged && rest + [] == rest;
      assert multiset(rest + [i]) == multiset([i] + rest);
      var a, b := Sequences.Without(i, rest, merged');
      EdgesFromMiddle(branches, a, i, b);
      EdgesFromMiddle(branches, rest, i, []);
      SameEdges(branches, rest, a + b);
    }
  }

  /**
   When the merged branches write disjoint nodes and all edge ids differ, committing them in any
   other order gives the same nodes and the same root.
   */
  lemma CommitOrderIsImmaterial(c: Crypto, init: Nodes, actions: seq<Action>, merged': seq<nat>)
    requires var w := Run(c, Start(init), actions);
             && multiset(merged') == multiset(w.merged) && InRange(w.branches, w.merged)
             && Disjoint(w.branches, w.merged) && DistinctIds(w.graph.edges)
    ensures var w := Run(c, Start(init), actions);
            && InRange(w.branches, merged')
            && ReplayNodes(init, w.branches, merged') == w.graph.nodes
            && ReplayRoot(c, init, w.branches, merged') == MerkleRoot(c, w.graph.nodes, w.graph.edges)
  {
    var w := Run(c, Start(init), actions);
    RunIsReplay(c, init, actions);
    forall i ensures i in w.merged <==> i in merged' {
      assert i in multiset(w.merged) <==> i in multiset(merged');
    }
    forall k | 0 <= k < |merged'| ensures merged'[k] < |w.branches| {
      assert merged'[k] in w.merged;
    }
    SameNodes(init, w.branches, w.merged, merged');
    SameEdges(w.branches, w.merged, merged');
    SortIgnoresOrder(w.graph.edges, ReplayEdges(w.branches, merged'));
  }

  /** Two branches whose merges would both go through can be merged in either order. */
  lemma MergesSwap(c: Crypto, w: World, a: Action, a': Action)
    requires a.Merge? && a'.Merge? && a.branch < |w.branches| && a'.branch < |w.branches| && a.branch != a'.branch
    requires Refuse(c, w.branches[a.branch], a.receipt, a.notaryKey) == None
    requires Refuse(c, w.branches[a'.branch], a'.receipt, a'.notaryKey) == None
    requires w.branches[a.branch].nodeDeltas.Keys !! w.branches[a'.branch].nodeDeltas.Keys
    requires DistinctIds(w.graph.edges + w.branches[a.branch].edgeDeltas + w.branches[a'.branch].edgeDeltas)
    ensures var one, two := Next(c, Next(c, w, a), a'), Next(c, Next(c, w, a'), a);
            && one.merged == w.merged + [a.branch, a'.branch] && two.merged == w.merged + [a'.branch, a.branch]
            && one.branches == two.branches && one.graph.nodes == two.graph.nodes
            && MerkleRoot(c, one.graph.nodes, one.graph.edges) == MerkleRoot(c, two.graph.nodes, two.graph.edges)
  {
    MergesCommute(c, w.graph, w.branches[a.branch], w.branches[a'.branch], a.receipt, a'.receipt,
                  a.commitId, a'.commitId, a.now, a'.now);
  }
}
