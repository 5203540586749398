/** The anchoring service: receipts issued over a growing Merkle log, and their verification. */
module RekorAnchor {
  import opened Hashing
  import opened Wrappers
  import opened MerkleSpec
  import opened MerkleLog
  import opened Decimal

  /** The parts of the hashedrekord entry that vary; the rest of the schema is constant text. */
  datatype Entry = Entry(payloadHash: string, signature: string, publicKey: string)

  /** The envelope's dictionary: a missing key is None. */
  datatype Envelope = Envelope(payloadHash: Option<string>, signature: Option<string>)

  datatype InclusionProof = InclusionProof(logIndex: nat, treeSize: nat, root: Bytes, auditPath: seq<Step>)

  datatype SignedHead = SignedHead(body: string, signature: Bytes)

  datatype Receipt = Receipt(logIndex: nat, integratedTime: int, entryDigest: Digest, entry: Option<Entry>,
                             proof: Option<InclusionProof>, head: Option<SignedHead>)

  datatype AnchorError = MissingPayloadHash

  /** The answer of the remote log when it accepted the entry, or a receipt of the local log. */
  datatype Anchored = Live(response: string) | Local(receipt: Receipt)

  /**
   What the service takes from its libraries: the hash, canonical JSON of an entry, hexadecimal
   text, and a signature key pair.
   */
  datatype Crypto = Crypto(hash: HashFn, canonical: Entry -> Bytes, hex: Bytes -> string, publicKey: string,
                           sign: string -> Bytes, verify: (Bytes, string) -> bool)
  {
    /** The one assumption about signatures: what was signed verifies. */
    ghost predicate SignaturesVerify() {
      forall body :: verify(sign(body), body)
    }

    /** Hexadecimal text is injective and has no equals sign. */
    ghost predicate HexIsText() {
      && (forall b :: '=' !in hex(b))
      && (forall b, b' :: hex(b) == hex(b') ==> b == b')
    }
  }

  const GENESIS: Bytes := [83, 77, 65, 79, 83, 95, 71, 69, 78, 69, 83, 73, 83, 95, 82, 79,
                           79, 84, 95, 69, 86, 73, 68, 69, 78, 67, 69, 95, 50, 48, 50, 54]

  predicate HasPayloadHash(envelope: Envelope) {
    envelope.payloadHash.Some? && envelope.payloadHash.value != ""
  }

  function EntryOf(c: Crypto, envelope: Envelope): Entry
    requires HasPayloadHash(envelope)
  {
    var signature := if envelope.signature.Some? then envelope.signature.value else "";
    Entry(envelope.payloadHash.value, signature, c.publicKey)
  }

  function HeadBody(treeSize: nat, rootHex: string, timestamp: int): string {
    "tree_size=" + PrintNat(treeSize) + ";root_hash=" + rootHex + ";timestamp=" + PrintInt(timestamp)
  }

  /** The receipt for an entry appended to a log. */
  ghost function ReceiptFor(c: Crypto, log: seq<Bytes>, entry: Entry, now: int): Receipt {
    var after := log + [c.canonical(entry)];
    var root := TreeHash(c.hash, after);
    var body := HeadBody(|after|, c.hex(root), now);
    Receipt(|log|, now, c.hash(c.canonical(entry)), Some(entry),
            Some(InclusionProof(|log|, |after|, root, AuditPath(c.hash, |log|, after))),
            Some(SignedHead(body, c.sign(body))))
  }

  /** The head that verify_receipt looks at; a missing one counts as empty. */
  function HeadOf(receipt: Receipt): SignedHead {
    if receipt.head.Some? then receipt.head.value else SignedHead("", [])
  }

  /** What verify_receipt answers. */
  predicate Accepts(c: Crypto, receipt: Receipt) {
    && receipt.entry.Some?
    && receipt.proof.Some?
    && FoldPath(c.hash, LeafHash(c.hash, c.canonical(receipt.entry.value)), receipt.proof.value.auditPath)
       == receipt.proof.value.root
    && c.verify(HeadOf(receipt).signature, HeadOf(receipt).body)
  }

  /** One call of anchor_cose_envelope at a given time. */
  datatype Request = Request(envelope: Envelope, now: int)

  /** The leaves after a run of requests on a fresh service; requests that raise add nothing. */
  ghost function LogAfter(c: Crypto, requests: seq<Request>): seq<Bytes> {
    if requests == [] then [GENESIS]
    else
      var before, last := LogAfter(c, requests[..|requests| - 1]), requests[|requests| - 1];
      if HasPayloadHash(last.envelope) then before + [c.canonical(EntryOf(c, last.envelope))] else before
  }

  /** The receipt that request i of a run returns. */
  ghost function ReceiptOf(c: Crypto, requests: seq<Request>, i: nat): Receipt
    requires i < |requests| && HasPayloadHash(requests[i].envelope)
  {
    ReceiptFor(c, LogAfter(c, requests[..i]), EntryOf(c, requests[i].envelope), requests[i].now)
  }

  class RekorAnchorService {
    const crypto: Crypto
    const merkleTree: MerkleTree
    ghost var requests: seq<Request>

    /** The log is what the requests so far have made of it. */
    ghost predicate Valid()
      reads this, merkleTree
    {
      && merkleTree.Valid()
      && merkleTree.hash == crypto.hash
      && merkleTree.leaves == LogAfter(crypto, requests)
    }

    constructor (crypto: Crypto)
      ensures Valid() && fresh(merkleTree)
      ensures this.crypto == crypto && requests == []
    {
      this.crypto := crypto;
      var t := new MerkleTree(crypto.hash, []);
      this.merkleTree := t;
      this.requests := [];
      new;
      var _ := t.AddLeaf(GENESIS);
    }

    /**
     remote is what a submission to the remote log would bring: its response, or None when it
     fails or is refused.  The local log is used, and its run goes on, whenever there is none.
     */
    method AnchorCoseEnvelope(envelope: Envelope, live: bool, remote: Option<string>, now: int)
      returns (r: Result<Anchored, AnchorError>)
      requires Valid()
      modifies this, merkleTree
      ensures Valid()
      ensures r.Ok? <==> envelope.payloadHash.Some? && envelope.payloadHash.value != ""
      ensures HasPayloadHash(envelope) && live && remote.Some? ==>
                r == Ok(Live(remote.value)) && requests == old(requests)
      ensures !(HasPayloadHash(envelope) && live && remote.Some?) ==>
                && requests == old(requests) + [Request(envelope, now)]
                && (r.Ok? ==> r.value == Local(ReceiptOf(crypto, requests, |old(requests)|)))
      ensures r.Err? || r.value.Live? ==> merkleTree.leaves == old(merkleTree.leaves)
    {
      if envelope.payloadHash.None? || envelope.payloadHash.value == "" {
        requests := requests + [Request(envelope, now)];
        assert requests[..|requests| - 1] == old(requests);
        return Err(MissingPayloadHash);
      }
      var entry := EntryOf(crypto, envelope);
      if live && remote.Some? {
        return Ok(Live(remote.value));
      }
      var receipt := AnchorLocally(envelope, entry, now);
      return Ok(Local(receipt));
    }

    /** The local branch of AnchorCoseEnvelope. */
    method AnchorLocally(envelope: Envelope, entry: Entry, now: int) returns (receipt: Receipt)
      requires Valid() && HasPayloadHash(envelope) && entry == EntryOf(crypto, envelope)
      modifies this, merkleTree
      ensures Valid() && requests == old(requests) + [Request(envelope, now)]
      ensures receipt == ReceiptOf(crypto, requests, |old(requests)|)
    {
      requests := requests + [Request(envelope, now)];
      assert requests[..|requests| - 1] == old(requests);
      var bytes := crypto.canonical(entry);
      var leafIndex := merkleTree.AddLeaf(bytes);
      var root := merkleTree.Root();
      var proof := merkleTree.GetInclusionProof(leafIndex);
      var body := HeadBody(|merkleTree.leaves|, crypto.hex(root), now);
      return Receipt(leafIndex, now, crypto.hash(bytes), Some(entry),
                     Some(InclusionProof(leafIndex, |merkleTree.leaves|, root, proof.value)),
                     Some(SignedHead(body, crypto.sign(body))));
    }

    method VerifyReceipt(receipt: Receipt) returns (ok: bool)
      ensures ok <==> Accepts(crypto, receipt)
    {
      if receipt.entry.None? || receipt.proof.None? {
        return false;
      }
      var bytes, proof := crypto.canonical(receipt.entry.value), receipt.proof.value;
      var included := MerkleTree.VerifyInclusion(crypto.hash, bytes, proof.logIndex, proof.treeSize, proof.root,
                                                 proof.auditPath);
      if !included {
        return false;
      }
      var head := if receipt.head.Some? then receipt.head.value else SignedHead("", []);
      return crypto.verify(head.signature, head.body);
    }
  }

  /* ----- What holds in every run ----- */

  /** The log only ever grows: an earlier log is a prefix of every later one. */
  lemma {:induction false} LogGrows(c: Crypto, requests: seq<Request>, i: nat)
    requires i <= |requests|
    ensures LogAfter(c, requests[..i]) <= LogAfter(c, requests)
    decreases |requests|
  {
    if i < |requests| {
      var shorter := requests[..|requests| - 1];
      LogGrows(c, shorter, i);
      assert shorter[..i] == requests[..i];
    } else {
      assert requests[..i] == requests;
    }
  }

  lemma LogAfterRequest(c: Crypto, requests: seq<Request>, i: nat)
    requires i < |requests| && HasPayloadHash(requests[i].envelope)
    ensures LogAfter(c, requests[..i + 1]) ==
            LogAfter(c, requests[..i]) + [c.canonical(EntryOf(c, requests[i].envelope))]
  {
    assert requests[..i + 1][..i] == requests[..i];
  }

  /**
   A receipt issued at any point of any run stays true of the log at the end of the run, and
   verify_receipt accepts it.
   */
  lemma ReceiptHoldsForever(c: Crypto, requests: seq<Request>, i: nat)
    requires i < |requests| && HasPayloadHash(requests[i].envelope)
    ensures var r, log := ReceiptOf(c, requests, i), LogAfter(c, requests);
            && r.logIndex == r.proof.value.logIndex == r.proof.value.treeSize - 1
            && r.proof.value.treeSize <= |log|
            && r.proof.value.root == TreeHash(c.hash, log[..r.proof.value.treeSize])
            && log[r.logIndex] == c.canonical(r.entry.value)
    ensures c.SignaturesVerify() ==> Accepts(c, ReceiptOf(c, requests, i))
  {
    var before, after, log := LogAfter(c, requests[..i]), LogAfter(c, requests[..i + 1]), LogAfter(c, requests);
    LogAfterRequest(c, requests, i);
    LogGrows(c, requests, i + 1);
    assert log[..|after|] == after;
    assert log[|before|] == after[|before|];
    AuditPathFolds(c.hash, |before|, after);
  }

  /** What an issued receipt says of its request: the entry's parts, its digest, the time, and the signed text. */
  lemma ReceiptRecords(c: Crypto, requests: seq<Request>, i: nat)
    requires i < |requests| && HasPayloadHash(requests[i].envelope)
    ensures var r, envelope := ReceiptOf(c, requests, i), requests[i].envelope;
            && r.entry.Some? && r.entry.value.payloadHash == envelope.payloadHash.value
            && r.entry.value.publicKey == c.publicKey
            && r.entry.value.signature == (if envelope.signature.Some? then envelope.signature.value else "")
            && r.entryDigest == c.hash(c.canonical(r.entry.value)) && r.integratedTime == requests[i].now
            && r.head.value.signature == c.sign(r.head.value.body)
            && r.head.value.body == "tree_size=" + PrintNat(r.proof.value.treeSize) + ";root_hash="
                                    + c.hex(r.proof.value.root) + ";timestamp=" + PrintInt(r.integratedTime)
            && r.logIndex < |LogAfter(c, requests[..i + 1])|
            && r.proof.value.auditPath == AuditPath(c.hash, r.logIndex, LogAfter(c, requests[..i + 1]))
  {
    LogAfterRequest(c, requests, i);
  }

  /** Every log begins with the genesis text, in ASCII. */
  lemma LogBeginsWithGenesis(c: Crypto, requests: seq<Request>)
    ensures LogAfter(c, requests) != [] && LogAfter(c, requests)[0] == GENESIS && |GENESIS| == 32
    ensures forall i :: 0 <= i < 32 ==> GENESIS[i] as int == "SMAOS_GENESIS_ROOT_EVIDENCE_2026"[i] as int
  {
    LogGrows(c, requests, 0);
    assert requests[..0] == [];
  }

  /** Receipts are issued with strictly growing tree sizes: no two carry the same one. */
  lemma TreeSizesGrow(c: Crypto, requests: seq<Request>, i: nat, j: nat)
    requires i < j < |requests| && HasPayloadHash(requests[i].envelope) && HasPayloadHash(requests[j].envelope)
    ensures ReceiptOf(c, requests, i).proof.value.treeSize < ReceiptOf(c, requests, j).proof.value.treeSize
  {
    LogAfterRequest(c, requests, i);
    LogGrows(c, requests[..j], i + 1);
    assert requests[..j][..i + 1] == requests[..i + 1];
  }

  /**
   Receipts of two runs that have one of the two logs extend the other, in particular receipts
   of one run, agree on the root whenever they agree on the tree size.
   */
  lemma SameSizeSameRoot(c: Crypto, requests: seq<Request>, i: nat, requests': seq<Request>, j: nat)
    requires i < |requests| && HasPayloadHash(requests[i].envelope)
    requires j < |requests'| && HasPayloadHash(requests'[j].envelope)
    requires LogAfter(c, requests) <= LogAfter(c, requests')
    requires ReceiptOf(c, requests, i).proof.value.treeSize == ReceiptOf(c, requests', j).proof.value.treeSize
    ensures ReceiptOf(c, requests, i).proof.value.root == ReceiptOf(c, requests', j).proof.value.root
    ensures ReceiptOf(c, requests, i).logIndex == ReceiptOf(c, requests', j).logIndex
  {
    ReceiptHoldsForever(c, requests, i);
    ReceiptHoldsForever(c, requests', j);
    var n := ReceiptOf(c, requests, i).proof.value.treeSize;
    assert LogAfter(c, requests)[..n] == LogAfter(c, requests')[..n];
  }

  function SizeAndRoot(n: nat, root: string): string {
    "tree_size=" + PrintNat(n) + ";root_hash" + ['='] + (root + ";timestamp")
  }

  lemma SizeAndRootInjective(n: nat, root: string, n': nat, root': string)
    requires '=' !in root && '=' !in root'
    requires SizeAndRoot(n, root) == SizeAndRoot(n', root')
    ensures n == n' && root == root'
  {
    var size, size' := "tree_size=" + PrintNat(n), "tree_size=" + PrintNat(n');
    SplitAtLast('=', size + ";root_hash", root + ";timestamp", size' + ";root_hash", root' + ";timestamp");
    assert (root + ";timestamp")[..|root|] == root && (root' + ";timestamp")[..|root'|] == root';
    assert (size + ";root_hash")[10..|size|] == PrintNat(n) && (size' + ";root_hash")[10..|size'|] == PrintNat(n');
    PrintNatInjective(n, n');
  }

  lemma HeadBodySplits(n: nat, root: string, now: int)
    ensures HeadBody(n, root, now) == SizeAndRoot(n, root) + ['='] + PrintInt(now)
  {
  }

  /** What a tree head signs determines the tree size, the root and the time. */
  lemma HeadBodyInjective(n: nat, root: string, now: int, n': nat, root': string, now': int)
    requires '=' !in root && '=' !in root'
    requires HeadBody(n, root, now) == HeadBody(n', root', now')
    ensures n == n' && root == root' && now == now'
  {
    HeadBodySplits(n, root, now);
    HeadBodySplits(n', root', now');
    SplitAtLast('=', SizeAndRoot(n, root), PrintInt(now), SizeAndRoot(n', root'), PrintInt(now'));
    PrintIntInjective(now, now');
    SizeAndRootInjective(n, root, n', root');
  }

  /* ----- What acceptance means ----- */

  /** The signed head names the size and the root that the receipt's own proof is about. */
  ghost predicate HeadNamesProof(c: Crypto, receipt: Receipt) {
    && receipt.head.Some? && receipt.proof.Some?
    && exists t :: receipt.head.value.body == HeadBody(receipt.proof.value.treeSize, c.hex(receipt.proof.value.root), t)
  }

  /** The head of this receipt was signed for request i of the run. */
  ghost predicate HeadIsFrom(c: Crypto, requests: seq<Request>, i: nat, receipt: Receipt) {
    && i < |requests| && HasPayloadHash(requests[i].envelope) && receipt.head.Some?
    && receipt.head.value.body == ReceiptOf(c, requests, i).head.value.body
  }

  /** A head signed in the run names the proof exactly when the proof has the size and root of the log of that time. */
  lemma HeadNamesProofExactly(c: Crypto, requests: seq<Request>, i: nat, receipt: Receipt)
    requires c.HexIsText() && HeadIsFrom(c, requests, i, receipt) && receipt.proof.Some?
    ensures HeadNamesProof(c, receipt) <==>
            && receipt.proof.value.treeSize == |LogAfter(c, requests[..i + 1])|
            && receipt.proof.value.root == TreeHash(c.hash, LogAfter(c, requests[..i + 1]))
  {
    var log, p := LogAfter(c, requests[..i + 1]), receipt.proof.value;
    LogAfterRequest(c, requests, i);
    assert receipt.head.value.body == HeadBody(|log|, c.hex(TreeHash(c.hash, log)), requests[i].now);
    if HeadNamesProof(c, receipt) {
      var t :| receipt.head.value.body == HeadBody(p.treeSize, c.hex(p.root), t);
      HeadBodyInjective(p.treeSize, c.hex(p.root), t, |log|, c.hex(TreeHash(c.hash, log)), requests[i].now);
    }
  }

  /** The receipts that the service issues have heads that name their proofs. */
  lemma IssuedHeadsNameProofs(c: Crypto, requests: seq<Request>, i: nat)
    requires i < |requests| && HasPayloadHash(requests[i].envelope)
    ensures HeadNamesProof(c, ReceiptOf(c, requests, i)) && HeadIsFrom(c, requests, i, ReceiptOf(c, requests, i))
  {
    var r := ReceiptOf(c, requests, i);
    assert r.head.value.body == HeadBody(r.proof.value.treeSize, c.hex(r.proof.value.root), requests[i].now);
  }

  /** Nobody but the service signs: if the receipt's signature verifies, the service made it in this run. */
  ghost predicate NotForged(c: Crypto, requests: seq<Request>, receipt: Receipt) {
    c.verify(HeadOf(receipt).signature, HeadOf(receipt).body) ==>
      exists i :: 0 <= i < |requests| && HasPayloadHash(requests[i].envelope)
                  && HeadOf(receipt).body == ReceiptOf(c, requests, i).head.value.body
  }

  /** Without a head whose signature verifies a receipt is refused, whatever else it holds. */
  lemma UnsignedIsRefused(c: Crypto, receipt: Receipt)
    requires !c.verify(HeadOf(receipt).signature, HeadOf(receipt).body)
    ensures !Accepts(c, receipt)
  {
  }

  /** Acceptance of a receipt that is not forged leads back to a request of the run. */
  lemma AcceptedHeadIsFromRun(c: Crypto, requests: seq<Request>, receipt: Receipt) returns (i: nat)
    requires Accepts(c, receipt) && NotForged(c, requests, receipt)
    ensures HeadIsFrom(c, requests, i, receipt)
  {
    i :| 0 <= i < |requests| && HasPayloadHash(requests[i].envelope)
         && HeadOf(receipt).body == ReceiptOf(c, requests, i).head.value.body;
    assert ReceiptOf(c, requests, i).head.value.body[0] == 't';
  }

  /**
   An accepted receipt, however it was made but for the signature, whose head names its proof is
   for an entry of the log at the position its audit path spells out, or it exhibits a collision.
   */
  lemma AcceptedReceiptIsLogged(c: Crypto, requests: seq<Request>, receipt: Receipt) returns (x: Bytes, y: Bytes)
    requires c.HexIsText() && Accepts(c, receipt)
    requires NotForged(c, requests, receipt) && HeadNamesProof(c, receipt)
    ensures var leaf, p, log := c.canonical(receipt.entry.value), receipt.proof.value, LogAfter(c, requests);
            && 0 < p.treeSize <= |log|
            && (|| (Position(p.treeSize, p.auditPath).Some? && log[Position(p.treeSize, p.auditPath).value] == leaf)
                || (Collide(c.hash, x, y) && x in VerifyInputs(c.hash, leaf, p.auditPath)
                    && y in TreeInputs(c.hash, log[..p.treeSize])))
  {
    var i := AcceptedHeadIsFromRun(c, requests, receipt);
    var log := LogAfter(c, requests[..i + 1]);
    HeadNamesProofExactly(c, requests, i, receipt);
    LogAfterRequest(c, requests, i);
    LogGrows(c, requests, i + 1);
    assert LogAfter(c, requests)[..|log|] == log;
    x, y := AcceptedMeansIncluded(c.hash, log, c.canonical(receipt.entry.value), receipt.proof.value.auditPath);
  }

  /**
   verify_receipt does not compare the proof with the head: the head of any accepted receipt is
   accepted with a proof of any other entry as well.  Only HeadNamesProof tells the two apart.
   */
  lemma HeadDoesNotBindEntry(c: Crypto, receipt: Receipt, entry: Entry) returns (other: Receipt)
    requires Accepts(c, receipt)
    ensures Accepts(c, other) && other.entry == Some(entry) && other.head == receipt.head
    ensures other.proof.value.auditPath == [] && other.proof.value.root == LeafHash(c.hash, c.canonical(entry))
  {
    var proof := receipt.proof.value.(root := LeafHash(c.hash, c.canonical(entry)), auditPath := []);
    other := receipt.(entry := Some(entry), proof := Some(proof));
  }
}
