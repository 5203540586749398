/** Copy-on-write branches over a state graph: the values, and what every operation does to them. */
module CowSpec {
  import opened Wrappers
  import Sequences

  /** The JSON of a node or of an edge's metadata, as an immutable value. */
  datatype Data = Data(json: string)

  datatype Edge = Edge(edgeId: string, source: string, target: string, relationship: string, metadata: Data,
                       timestamp: real)

  datatype Status = ACTIVE | MERGED | DISCARDED

  type Nodes = map<string, Data>

  /** None is a tombstone. */
  type Deltas = map<string, Option<Data>>

  datatype Trace = Trace(action: string, subject: string, timestamp: real)

  datatype Branch = Branch(branchId: string, agentId: string, baseSnapshotHash: string, nodeDeltas: Deltas,
                           edgeDeltas: seq<Edge>, status: Status, discardReason: Option<string>, trace: seq<Trace>)

  datatype Commit = Commit(commitId: string, branchId: string, deltaHash: string, receiptDigest: string,
                           newMerkleRoot: string, timestamp: real)

  datatype Graph = Graph(nodes: Nodes, edges: seq<Edge>, history: seq<Commit>)

  /** The parts of a receipt that the merge looks at; a missing or empty entry is None. */
  datatype Payload = Payload(disposition: Option<string>, status: Option<string>, deltaHash: Option<string>,
                             branchDeltaHash: Option<string>, rest: string)

  datatype Receipt = Receipt(signature: Option<string>, payload: Option<Payload>, publicKeyHex: Option<string>)

  /** Digests of canonical JSON, and base64 and signatures, as the libraries provide them. */
  datatype Crypto = Crypto(stateDigest: (Nodes, seq<Edge>) -> string,
                           deltaDigest: (string, string, Deltas, seq<Edge>) -> string,
                           receiptDigest: Receipt -> string,
                           decode: string -> Option<string>,
                           verify: (string, string, Payload) -> bool)

  /* ----- Edges in the order of their ids ----- */

  /** Python's order on strings, by code points. */
  predicate StringLess(a: string, b: string) {
    b != "" && (a == "" || a[0] < b[0] || (a[0] == b[0] && StringLess(a[1..], b[1..])))
  }

  function InsertEdge(e: Edge, s: seq<Edge>): seq<Edge> {
    if s != [] && StringLess(s[0].edgeId, e.edgeId) then [s[0]] + InsertEdge(e, s[1..]) else [e] + s
  }

  /** sorted(edges, key = edge_id), which is stable. */
  function SortEdges(s: seq<Edge>): seq<Edge> {
    if s == [] then [] else InsertEdge(s[0], SortEdges(s[1..]))
  }

  function MerkleRoot(c: Crypto, nodes: Nodes, edges: seq<Edge>): string {
    c.stateDigest(nodes, SortEdges(edges))
  }

  /* ----- Views ----- */

  function GraphView(nodes: Nodes, id: string): Option<Data> {
    if id in nodes then Some(nodes[id]) else None
  }

  /** A branch reads its own delta first and falls through to the live parent. */
  function BranchView(b: Branch, nodes: Nodes, id: string): Option<Data> {
    if id in b.nodeDeltas then b.nodeDeltas[id] else GraphView(nodes, id)
  }

  /* ----- Branch operations ----- */

  datatype EditError = NotActive(status: Status)

  function NewBranch(c: Crypto, g: Graph, branchId: string, agentId: string): Branch {
    Branch(branchId, agentId, MerkleRoot(c, g.nodes, g.edges), map[], [], ACTIVE, None, [])
  }

  /** set_node writes Some(data), delete_node writes a tombstone. */
  function EditNode(b: Branch, id: string, delta: Option<Data>, now: real): Result<Branch, EditError> {
    if b.status != ACTIVE then Err(NotActive(b.status))
    else
      var action := if delta.Some? then "SET_NODE" else "DELETE_NODE";
      Ok(b.(nodeDeltas := b.nodeDeltas[id := delta], trace := b.trace + [Trace(action, id, now)]))
  }

  function EdgeId(source: string, target: string, relationship: string): string {
    "edge:" + source + "->" + target + ":" + relationship
  }

  function NewEdge(source: string, target: string, relationship: string, metadata: Option<Data>, now: real): Edge {
    Edge(EdgeId(source, target, relationship), source, target, relationship,
         if metadata.Some? then metadata.value else Data("{}"), now)
  }

  function AddEdge(b: Branch, e: Edge): Result<Branch, EditError> {
    if b.status != ACTIVE then Err(NotActive(b.status))
    else Ok(b.(edgeDeltas := b.edgeDeltas + [e], trace := b.trace + [Trace("ADD_EDGE", e.edgeId, e.timestamp)]))
  }

  function DeltaHash(c: Crypto, b: Branch): string {
    c.deltaDigest(b.branchId, b.baseSnapshotHash, b.nodeDeltas, b.edgeDeltas)
  }

  /** Whatever the branch's status is. */
  function Discard(b: Branch, reason: string): Branch {
    b.(status := DISCARDED, discardReason := Some(reason))
  }

  /* ----- Laws of the branch operations ----- */

  /** What a branch says about a node: nothing, that it is gone, or its data. */
  function DeltaOf(b: Branch, id: string): Option<Option<Data>> {
    if id in b.nodeDeltas then Some(b.nodeDeltas[id]) else None
  }

  /** An accepted edit shows at once, every other node reads as before, and nothing else but the trace changes. */
  lemma EditShows(b: Branch, id: string, delta: Option<Data>, now: real, nodes: Nodes)
    ensures b.status != ACTIVE ==> EditNode(b, id, delta, now) == Err(NotActive(b.status))
    ensures b.status == ACTIVE ==> EditNode(b, id, delta, now).Ok?
    ensures b.status == ACTIVE ==>
              var b' := EditNode(b, id, delta, now).value;
              && BranchView(b', nodes, id) == delta && DeltaOf(b', id) == Some(delta)
              && (forall other :: other != id ==>
                    DeltaOf(b', other) == DeltaOf(b, other) && BranchView(b', nodes, other) == BranchView(b, nodes, other))
              && b'.trace == b.trace + [Trace(if delta.Some? then "SET_NODE" else "DELETE_NODE", id, now)]
              && b' == b.(nodeDeltas := b'.nodeDeltas, trace := b'.trace)
  {
  }

  /** An accepted edge carries its own parts and an id made of them; nothing else but the trace changes. */
  lemma EdgeShows(b: Branch, source: string, target: string, relationship: string, metadata: Option<Data>, now: real)
    ensures var r := AddEdge(b, NewEdge(source, target, relationship, metadata, now));
            var id := "edge:" + source + "->" + target + ":" + relationship;
            var data := if metadata.Some? then metadata.value else Data("{}");
            && (b.status != ACTIVE ==> r == Err(NotActive(b.status)))
            && (b.status == ACTIVE ==>
                r.Ok? && r.value == b.(edgeDeltas := b.edgeDeltas + [Edge(id, source, target, relationship, data, now)],
                                       trace := b.trace + [Trace("ADD_EDGE", id, now)]))
  {
  }

  /** A new branch is active, carries its own names and the root it was forked at, and reads as its parent. */
  lemma NewBranchReadsAsParent(c: Crypto, g: Graph, branchId: string, agentId: string, nodes: Nodes, id: string)
    ensures var b := NewBranch(c, g, branchId, agentId);
            && b.branchId == branchId && b.agentId == agentId && b.status == ACTIVE
            && b.baseSnapshotHash == MerkleRoot(c, g.nodes, g.edges) && b.discardReason == None
            && BranchView(b, nodes, id) == GraphView(nodes, id) && b.edgeDeltas == [] && b.trace == []
  {
  }

  /** Two branches have one delta hash when their names and deltas agree, or their two manifests collide. */
  lemma DeltaHashBinds(c: Crypto, b: Branch, b': Branch)
    ensures var same := && b.branchId == b'.branchId && b.baseSnapshotHash == b'.baseSnapshotHash
                        && b.nodeDeltas == b'.nodeDeltas && b.edgeDeltas == b'.edgeDeltas;
            DeltaHash(c, b) == DeltaHash(c, b') <==>
            same || (!same && c.deltaDigest(b.branchId, b.baseSnapshotHash, b.nodeDeltas, b.edgeDeltas) ==
                              c.deltaDigest(b'.branchId, b'.baseSnapshotHash, b'.nodeDeltas, b'.edgeDeltas))
  {
  }

  /** Two states have one root when their nodes and their edges by id agree, or these two collide. */
  lemma MerkleRootBinds(c: Crypto, nodes: Nodes, edges: seq<Edge>, nodes': Nodes, edges': seq<Edge>)
    ensures var same := nodes == nodes' && SortEdges(edges) == SortEdges(edges');
            MerkleRoot(c, nodes, edges) == MerkleRoot(c, nodes', edges') <==>
            same || (!same && c.stateDigest(nodes, SortEdges(edges)) == c.stateDigest(nodes', SortEdges(edges')))
  {
  }

  /* ----- Merging ----- */

  datatype Refusal = BranchNotActive | MissingSignature | BadSignature | MalformedPayload | NotConfirmed
                   | DeltaMismatch | MissingKey

  function Or(a: Option<string>, b: Option<string>): Option<string> {
    if a.Some? then a else b
  }

  const CONFIRMATIONS: set<string> := {"CONFIRMED", "SATISFIED_CONFIRMED", "SUCCESS"}

  /** The checks of merge_if_verified in their order; None lets the merge through. */
  function Refuse(c: Crypto, b: Branch, r: Receipt, notaryKey: Option<string>): Option<Refusal> {
    if b.status != ACTIVE then Some(BranchNotActive)
    else if r.signature.None? then Some(MissingSignature)
    else if c.decode(r.signature.value).None? then Some(BadSignature)
    else if r.payload.None? then Some(MalformedPayload)
    else
      var p := r.payload.value;
      var disposition, bound := Or(p.disposition, p.status), Or(p.deltaHash, p.branchDeltaHash);
      var key := Or(notaryKey, r.publicKeyHex);
      if disposition.None? || disposition.value !in CONFIRMATIONS then Some(NotConfirmed)
      else if bound.Some? && bound.value != DeltaHash(c, b) then Some(DeltaMismatch)
      else if key.None? then Some(MissingKey)
      else if !c.verify(key.value, c.decode(r.signature.value).value, p) then Some(BadSignature)
      else None
  }

  /** The nodes after the deltas are written over them. */
  function Overlay(nodes: Nodes, deltas: Deltas): Nodes {
    map id | id in nodes.Keys + deltas.Keys && (id in deltas ==> deltas[id].Some?) ::
      if id in deltas then deltas[id].value else nodes[id]
  }

  function MergedGraph(c: Crypto, g: Graph, b: Branch, r: Receipt, commitId: string, now: real): Graph {
    var nodes, edges := Overlay(g.nodes, b.nodeDeltas), g.edges + b.edgeDeltas;
    Graph(nodes, edges,
          g.history + [Commit(commitId, b.branchId, DeltaHash(c, b), c.receiptDigest(r), MerkleRoot(c, nodes, edges), now)])
  }

  /** A refused merge discards an active branch and leaves any other as it is. */
  function RefusedBranch(b: Branch, refusal: Refusal, reason: string): Branch {
    if refusal == BranchNotActive then b else Discard(b, reason)
  }

  /* ----- Laws of one merge ----- */

  /** After a merge the graph shows every node as the branch showed it just before. */
  lemma MergeShowsTheBranch(g: Graph, b: Branch, id: string)
    ensures GraphView(Overlay(g.nodes, b.nodeDeltas), id) == BranchView(b, g.nodes, id)
  {
  }

  /** The dispositions that confirm, one by one. */
  predicate Confirms(disposition: string) {
    disposition == "CONFIRMED" || disposition == "SATISFIED_CONFIRMED" || disposition == "SUCCESS"
  }

  /**
   A merge goes through exactly when the branch is active, the payload's disposition, or failing
   that its status, confirms, the signature verifies under the notary's key or else the
   receipt's own, and any delta hash named is the branch's.  A receipt that names none is let
   through.
   */
  lemma MergesExactlyWhen(c: Crypto, b: Branch, r: Receipt, notaryKey: Option<string>)
    ensures Refuse(c, b, r, notaryKey) == None <==>
            && b.status == ACTIVE && r.signature.Some? && r.payload.Some? && c.decode(r.signature.value).Some?
            && var p := r.payload.value;
               var disposition := if p.disposition.Some? then p.disposition else p.status;
               var named := if p.deltaHash.Some? then p.deltaHash else p.branchDeltaHash;
               var key := if notaryKey.Some? then notaryKey else r.publicKeyHex;
               && disposition.Some? && Confirms(disposition.value)
               && (named == None || named == Some(DeltaHash(c, b)))
               && key.Some? && c.verify(key.value, c.decode(r.signature.value).value, p)
  {
  }

  /** Which of several faults is reported: the first in this order. */
  lemma RefusalsInOrder(c: Crypto, b: Branch, r: Receipt, notaryKey: Option<string>)
    ensures var refusal := Refuse(c, b, r, notaryKey);
            && (refusal == Some(BranchNotActive) <==> b.status != ACTIVE)
            && (b.status == ACTIVE ==>
                && (refusal == Some(MissingSignature) <==> r.signature.None?)
                && (r.signature.Some? && c.decode(r.signature.value).None? ==> refusal == Some(BadSignature))
                && (refusal == Some(MalformedPayload) <==>
                    r.signature.Some? && c.decode(r.signature.value).Some? && r.payload.None?)
                && (refusal in {Some(NotConfirmed), Some(DeltaMismatch), Some(MissingKey)} ==>
                    r.signature.Some? && c.decode(r.signature.value).Some? && r.payload.Some?)
                && (refusal in {Some(DeltaMismatch), Some(MissingKey)} ==>
                    var p := r.payload.value;
                    var disposition := if p.disposition.Some? then p.disposition else p.status;
                    disposition.Some? && Confirms(disposition.value))
                && (refusal == Some(DeltaMismatch) ==> NamedHash(r) != None && NamedHash(r) != Some(DeltaHash(c, b)))
                && (refusal == Some(MissingKey) ==>
                    notaryKey.None? && r.publicKeyHex.None? && (NamedHash(r) == None || NamedHash(r) == Some(DeltaHash(c, b)))))
  {
  }

  /** The delta hash that a receipt names, if any. */
  function NamedHash(r: Receipt): Option<string> {
    if r.payload.None? then None else Or(r.payload.value.deltaHash, r.payload.value.branchDeltaHash)
  }

  /**
   What a receipt that merges one branch says about another active branch: it merges that one
   too exactly when it names no delta hash, or both branches have the same one.
   */
  lemma ReceiptBindsExactly(c: Crypto, b: Branch, b': Branch, r: Receipt, notaryKey: Option<string>)
    requires Refuse(c, b, r, notaryKey) == None && b'.status == ACTIVE
    ensures Refuse(c, b', r, notaryKey) == None <==> NamedHash(r) == None || DeltaHash(c, b') == DeltaHash(c, b)
  {
  }

  /** Of the receipts that merge a branch, exactly those that name a hash name the branch's. */
  lemma MergedHashIsNamed(c: Crypto, b: Branch, r: Receipt, notaryKey: Option<string>)
    requires Refuse(c, b, r, notaryKey) == None
    ensures NamedHash(r) == Some(DeltaHash(c, b)) <==> NamedHash(r).Some?
  {
  }

  lemma {:induction false} StringOrder(a: string, b: string)
    ensures !(StringLess(a, b) && StringLess(b, a))
    ensures a != b ==> StringLess(a, b) || StringLess(b, a)
    decreases |a|
  {
    if a != "" && b != "" && a[0] == b[0] {
      StringOrder(a[1..], b[1..]);
      assert a == [a[0]] + a[1..] && b == [b[0]] + b[1..];
    }
  }

  /** The first difference decides, by code points; a proper prefix comes first. */
  lemma {:induction false} StringLessMeans(a: string, b: string)
    ensures StringLess(a, b) <==>
            exists k :: 0 <= k <= |a| && k < |b| && a[..k] == b[..k] && (k == |a| || a[k] as int < b[k] as int)
    decreases |a|
  {
    if a != "" && b != "" && a[0] == b[0] {
      StringLessMeans(a[1..], b[1..]);
      if StringLess(a, b) {
        var k :| 0 <= k <= |a[1..]| && k < |b[1..]| && a[1..][..k] == b[1..][..k]
                 && (k == |a[1..]| || a[1..][k] as int < b[1..][k] as int);
        assert a[..k + 1] == [a[0]] + a[1..][..k] && b[..k + 1] == [b[0]] + b[1..][..k];
      }
      if k :| 0 <= k <= |a| && k < |b| && a[..k] == b[..k] && (k == |a| || a[k] as int < b[k] as int) {
        assert k > 0;
        assert a[1..][..k - 1] == a[..k][1..] && b[1..][..k - 1] == b[..k][1..];
      }
    } else if a == "" && b != "" {
      assert a[..0] == b[..0];
    } else if a != "" && b != "" {
      assert a[..0] == b[..0];
      forall k | 0 < k <= |a| && k < |b| ensures a[..k] != b[..k] {
        assert a[..k][0] == a[0] && b[..k][0] == b[0];
      }
    }
  }

  lemma {:induction false} StringTransitive(a: string, b: string, c: string)
    requires StringLess(a, b) && StringLess(b, c)
    ensures StringLess(a, c)
    decreases |a|
  {
    if a != "" && a[0] == b[0] == c[0] {
      StringTransitive(a[1..], b[1..], c[1..]);
    }
  }

  /** Edges with different ids can be inserted in either order. */
  lemma {:induction false} InsertsCommute(e: Edge, f: Edge, s: seq<Edge>)
    requires StringLess(e.edgeId, f.edgeId)
    ensures InsertEdge(e, InsertEdge(f, s)) == InsertEdge(f, InsertEdge(e, s))
    decreases |s|
  {
    StringOrder(e.edgeId, f.edgeId);
    if s != [] && StringLess(s[0].edgeId, e.edgeId) {
      StringTransitive(s[0].edgeId, e.edgeId, f.edgeId);
      InsertsCommute(e, f, s[1..]);
      assert ([s[0]] + InsertEdge(f, s[1..]))[1..] == InsertEdge(f, s[1..]);
      assert ([s[0]] + InsertEdge(e, s[1..]))[1..] == InsertEdge(e, s[1..]);
    } else {
      assert ([e] + s)[1..] == s;
      assert InsertEdge(f, [e] + s) == [e] + InsertEdge(f, s);
    }
  }

  ghost predicate DistinctIds(s: seq<Edge>) {
    forall i, j :: 0 <= i < j < |s| ==> s[i].edgeId != s[j].edgeId
  }

  /** An edge in the middle may as well be inserted last. */
  lemma {:induction false} SortFromMiddle(a: seq<Edge>, e: Edge, b: seq<Edge>)
    requires forall i :: 0 <= i < |a| ==> a[i].edgeId != e.edgeId
    ensures SortEdges(a + [e] + b) == InsertEdge(e, SortEdges(a + b))
    decreases |a|
  {
    if a == [] {
      assert a + [e] + b == [e] + b && ([e] + b)[1..] == b && a + b == b;
    } else {
      assert (a + [e] + b)[1..] == a[1..] + [e] + b && (a + b)[1..] == a[1..] + b;
      SortFromMiddle(a[1..], e, b);
      StringOrder(a[0].edgeId, e.edgeId);
      if StringLess(a[0].edgeId, e.edgeId) {
        InsertsCommute(a[0], e, SortEdges(a[1..] + b));
      } else {
        InsertsCommute(e, a[0], SortEdges(a[1..] + b));
      }
    }
  }

  /** With distinct ids the sorted edges depend on which edges there are, not on their order. */
  lemma {:induction false} SortIgnoresOrder(s: seq<Edge>, t: seq<Edge>)
    requires DistinctIds(s) && multiset(s) == multiset(t)
    ensures SortEdges(s) == SortEdges(t)
    decreases |s|
  {
    assert |s| == |multiset(s)| == |t|;
    if s != [] {
      var e, rest := s[0], s[1..];
      assert s == [e] + rest;
      var a, b := Sequences.Without(e, rest, t);
      OthersDiffer(s, a + b);
      assert forall i :: 0 <= i < |a| ==> (a + b)[i] == a[i];
      SortFromMiddle(a, e, b);
      SortIgnoresOrder(rest, a + b);
    }
  }

  lemma OthersDiffer(s: seq<Edge>, others: seq<Edge>)
    requires s != [] && DistinctIds(s) && multiset(others) == multiset(s[1..])
    ensures forall i :: 0 <= i < |others| ==> others[i].edgeId != s[0].edgeId
    ensures DistinctIds(s[1..])
  {
    forall i | 0 <= i < |others| ensures others[i].edgeId != s[0].edgeId {
      assert others[i] in multiset(others);
      assert others[i] in s[1..];
    }
  }

  ghost predicate Sorted(s: seq<Edge>) {
    forall i, j :: 0 <= i < j < |s| ==> !StringLess(s[j].edgeId, s[i].edgeId)
  }

  /** Sorting keeps every edge as often as it was and puts no larger id in front of a smaller one. */
  lemma {:induction false} SortEdgesSorts(s: seq<Edge>)
    ensures multiset(SortEdges(s)) == multiset(s)
    ensures Sorted(SortEdges(s))
    decreases |s|
  {
    if s != [] {
      SortEdgesSorts(s[1..]);
      InsertEdgeSorts(s[0], SortEdges(s[1..]));
      assert s == [s[0]] + s[1..];
    }
  }

  lemma {:induction false} InsertEdgeSorts(e: Edge, s: seq<Edge>)
    requires Sorted(s)
    ensures multiset(InsertEdge(e, s)) == multiset(s) + multiset{e}
    ensures Sorted(InsertEdge(e, s))
    decreases |s|
  {
    if s == [] {
    } else if StringLess(s[0].edgeId, e.edgeId) {
      InsertEdgeSorts(e, s[1..]);
      assert s == [s[0]] + s[1..];
      LeastInFront(s[0], s[1..], e, InsertEdge(e, s[1..]));
    } else {
      forall j | 0 <= j < |s| ensures !StringLess(s[j].edgeId, e.edgeId) {
        if j > 0 && StringLess(s[j].edgeId, e.edgeId) {
          NotLessChain(s[j].edgeId, e.edgeId, s[0].edgeId);
        }
      }
    }
  }

  /** An edge that nothing is below can stand in front of a sorted list. */
  lemma LeastInFront(f: Edge, s: seq<Edge>, e: Edge, t: seq<Edge>)
    requires StringLess(f.edgeId, e.edgeId) && forall x :: x in s ==> !StringLess(x.edgeId, f.edgeId)
    requires multiset(t) == multiset(s) + multiset{e} && Sorted(t)
    ensures Sorted([f] + t)
  {
    StringOrder(f.edgeId, e.edgeId);
    forall j | 0 <= j < |t| ensures !StringLess(t[j].edgeId, f.edgeId) {
      assert t[j] in multiset(t);
      assert t[j] == e || t[j] in s;
    }
  }

  lemma NotLessChain(a: string, b: string, c: string)
    requires StringLess(a, b) && !StringLess(c, b)
    ensures StringLess(a, c)
  {
    StringOrder(b, c);
    if b != c {
      StringTransitive(a, b, c);
    }
  }

  /** What a merge adds to the history. */
  lemma MergeRecords(c: Crypto, g: Graph, b: Branch, r: Receipt, commitId: string, now: real)
    ensures var g' := MergedGraph(c, g, b, r, commitId, now);
            && |g'.history| == |g.history| + 1 && g'.history[..|g.history|] == g.history
            && var entry := g'.history[|g.history|];
               && entry.commitId == commitId && entry.branchId == b.branchId && entry.deltaHash == DeltaHash(c, b)
               && entry.receiptDigest == c.receiptDigest(r) && entry.timestamp == now
               && entry.newMerkleRoot == MerkleRoot(c, g'.nodes, g'.edges)
  {
  }

  /** Two overlays commute exactly when they agree wherever both write. */
  lemma OverlaysCommute(nodes: Nodes, d: Deltas, d': Deltas)
    ensures Overlay(Overlay(nodes, d), d') == Overlay(Overlay(nodes, d'), d) <==>
            forall id :: id in d && id in d' ==> d[id] == d'[id]
  {
    var one, two := Overlay(Overlay(nodes, d), d'), Overlay(Overlay(nodes, d'), d);
    if forall id :: id in d && id in d' ==> d[id] == d'[id] {
      assert one.Keys == two.Keys;
      assert forall id :: id in one ==> one[id] == two[id];
    } else {
      var id :| id in d && id in d' && d[id] != d'[id];
      assert GraphView(one, id) == d'[id] && GraphView(two, id) == d[id];
    }
  }

  /** Merging two branches on disjoint nodes, with distinct edge ids, gives one graph and one root. */
  lemma MergesCommute(c: Crypto, g: Graph, b: Branch, b': Branch, r: Receipt, r': Receipt,
                      id: string, id': string, t: real, t': real)
    requires b.nodeDeltas.Keys !! b'.nodeDeltas.Keys
    requires DistinctIds(g.edges + b.edgeDeltas + b'.edgeDeltas)
    ensures var one := MergedGraph(c, MergedGraph(c, g, b, r, id, t), b', r', id', t');
            var two := MergedGraph(c, MergedGraph(c, g, b', r', id', t'), b, r, id, t);
            && one.nodes == two.nodes
            && MerkleRoot(c, one.nodes, one.edges) == MerkleRoot(c, two.nodes, two.edges)
            && one.history[|g.history| + 1].newMerkleRoot == two.history[|g.history| + 1].newMerkleRoot
  {
    OverlaysCommute(g.nodes, b.nodeDeltas, b'.nodeDeltas);
    SortIgnoresOrder(g.edges + b.edgeDeltas + b'.edgeDeltas, g.edges + b'.edgeDeltas + b.edgeDeltas);
  }
}
