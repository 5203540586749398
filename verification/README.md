# Verified model of the SMAOS evidence core

A Dafny model of five parts of the repository and proofs about them:

- the **Merkle log and anchoring service** (`src/scitt_anchor.py`);
- the **CBOR / COSE codec** (`src/scitt_cose/cbor_encoder.py`);
- the **HCL parser** (`src/hcl_compiler/parser.py`);
- the **state machines**: approval nonces, intents, wire observation, the pre-dispatch gate and the
  copy-on-write graph (`src/nonce_ledger.py`, `src/intent_ledger.py`, `src/transport_observer.py`,
  `src/smaos_gate.py`, `src/cow_subgraph_sandbox.py`);
- the **key arithmetic**: LEI check digits and the idempotency binding (`src/dora_xbrl_compiler.py`,
  `src/jev_typed_router.py`, `src/idempotency_binder.py`).

`dafny verify dfyconfig.toml` checks everything.

## How it is built

Code that changes things step by step is a class or a method with the source's loops
(`MerkleTree`, `RekorAnchorService`, `HCLParser`, `ApprovalNonceLedger`, `IntentLedger`,
`SmaosPreDispatchGate`, `COWBranch`, `COWStateGraph`, the CBOR decoder, the LEI checks). Each is
proved equal to a specification function or an independent definition, and the theorems are about
those. Runs of several clients or objects are state machines over sequences of states.

Nothing is assumed about the hash: it is any function from byte strings to 32-byte strings. Where a
conclusion needs it to be collision free, the theorem says "the conclusion, or these two named
inputs collide". Signatures, canonical JSON, hexadecimal and base64 text, UUIDs and clocks are
parameters. The only assumptions are that what was signed verifies, that a receipt's signature was
made by the service, that hexadecimal text is injective and has no equals sign, and that Python's text
operations are the usual ones on ASCII; each theorem names those it uses.

| file | contents |
|---|---|
| `Wrappers`, `Hashing`, `Sequences`, `Decimal`, `ByteOrder`, `KeyedSort` | shared vocabulary, decimal printing and reading, byte orders, the keyed sort |
| `MerkleSpec`, `MerkleLog`, `RekorAnchor` | RFC 6962 trees against the level-by-level log; runs of the service |
| `Cbor`, `CborTheorems`, `CborCanonical`, `CborDecoded`, `CborBytes`, `CborKeyOrder`, `Cose` | codec, round trip, canonicity, decoded values, the bytes themselves, key order, signed structures |
| `HclSpec`, `HclParser`, `HclLayout`, `HclRoundTrip`, `HclDocuments`, `HclMeaning`, `HclProgress` | parser as functions and as an object, white space and comments, printer, round trip, what documents denote, progress |
| `NonceLedger`, `NonceRuns`, `NonceUnlocked` | one call, interleaved calls with and without the write lock |
| `IntentLedger`, `TransportObserver`, `Gate`, `GateRuns` | intents, classification, the gate and its runs |
| `CowSpec`, `CowGraph`, `CowRuns` | branch and graph values, the objects, whole runs |
| `Lei`, `Idempotency` | check digits and binding string |

## What the proofs found

Where the code and its own words disagree, the model follows the code.

- **CBOR map order.** The comment at `src/scitt_cose/cbor_encoder.py:77` and the name "canonical"
  suggest bytewise key order; the code sorts length first. `WhenOrderIsBytewise` gives the exact
  condition under which both agree, and `MixedMajorsAreNotBytewise` the map `{-1, 24}` where they do not.
- **Merge without a delta hash.** The docstring of `merge_if_verified` asks for the exact delta hash;
  a receipt that names none is merged. `MergesExactlyWhen` states the condition the code does check,
  `HashlessReceiptMerges` shows such a merge, and `ReceiptBindsExactly` says when a receipt is bound to
  its branch.
- **Discards after merges.** `discard_branch` relabels a merged branch as discarded; its work stays in
  the graph: `DiscardRelabels`.
- **HCL lists closed by a brace.** The list loop never ends at `}`. That is the only state in which
  the parser does not move on: `ListTurnStallsAtBrace`, `StuckAtBrace`,
  `NoBraceNoStall`, `UnclosedListIsStuck`.
- **HCL blocks of one type.** A second unnamed block is dropped without a word, and an unnamed first
  body shares its dictionary with the named blocks: `RepeatedUnnamedIsDropped`, `DocumentDenotes`.
- **LEI with a final newline.** `$` matches before it and `int` then raises; nothing else raises:
  `RaisesExactly`.
- **LEI error detection.** A letter can stand in for a digit, or the reverse, unnoticed; the exact
  cases are `Unnoticed`, and the exact blind transpositions are `BlindPair`.
- **Nonce ledger without its lock.** The conditional update alone already gives at most one success,
  but a consumed row can then be overwritten by EXPIRED: `ConsumedCanBeOverwritten`.
- **Wire dispositions.** UNKNOWN, QUARANTINED_UNCONFIRMED and INVALID_INPUT are never produced:
  `WhatClassificationMeans`.
- **Results without a status.** With no request bytes, which the gate never asks for, such a result is
  passed on and its intent confirmed although the observation says never dispatched:
  `PassedOnWhenConfirmed`.
- **Receipts and their signed heads.** `verify_receipt` checks the path against the receipt's own root
  and the signature over the head, and never compares the two, so acceptance alone says nothing about
  the log: `HeadDoesNotBindEntry`. It does when the head also names the proof's size and root, which a
  caller can compare: `AcceptedReceiptIsLogged`, `HeadNamesProofExactly`.
- **Texts that end early.** An unclosed block, list or string at the end of a text is accepted in
  silence: `OpenBlockAtEnd`, `ValuesAtEnd`.
- **Inclusion proofs.** `verify_inclusion` ignores the index and the tree size; the position a proof
  vouches for is the one its directions spell out (`AcceptedMeansIncluded`).

## Model

| member | source | states |
|---|---|---|
| MerkleSpec.SplitIsPowerOfTwo | src/scitt_anchor.py:50-61 | the split point of the specification is the largest power of two below n, as section 2.1 of RFC 6962 asks |
| MerkleSpec.TreeHashIsRfc6962 | src/scitt_anchor.py:18-67 | the tree hash in the standard's own terms, with the prefix bytes 0x00 and 0x01 and left before right |
| MerkleSpec.LevelUpKeepsHash | src/scitt_anchor.py:53-59 | one pairing pass with odd-node promotion preserves the top-down recursive hash |
| MerkleSpec.LevelsRootIsTreeHash | src/scitt_anchor.py:49-67 | for every list of leaves, the empty one included, the bottom-up levels end in the Merkle Tree Hash of RFC 6962 |
| MerkleSpec.GatheredPathIsAuditPath | src/scitt_anchor.py:73-89 | the path gathered level by level is PATH(m, D[n]) of section 2.1.1 of RFC 6962 with the right sides, in at most ceil(log2 n) steps |
| MerkleSpec.CeilLog2IsLeast | src/scitt_anchor.py:80-88 | the bound used above is the least exponent whose power of two reaches n |
| MerkleSpec.AuditPathFolds | src/scitt_anchor.py:91-101 | folding any audit path from its leaf gives the tree hash: completeness of verification |
| MerkleSpec.AuditPathSpellsPosition | src/scitt_anchor.py:81-88 | the sides of an audit path spell out exactly the index it was made for |
| MerkleSpec.AcceptedMeansIncluded | src/scitt_anchor.py:91-101 | any accepted path, of any length and with siblings of any size, puts the leaf at the position its sides spell, or exhibits two colliding hash inputs |
| MerkleLog.MerkleTree.constructor | src/scitt_anchor.py:34-39 | the tree over given leaves is valid: leaf hashes and levels belong to the leaves |
| MerkleLog.MerkleTree.AddLeaf | src/scitt_anchor.py:41-47 | appends the leaf, keeps validity, returns the old length |
| MerkleLog.MerkleTree.BuildTree | src/scitt_anchor.py:49-61 | the nested loops leave levels that are pairing passes of one another up to a single node |
| MerkleLog.MerkleTree.PairUp | src/scitt_anchor.py:53-59 | the inner loop is one pairing pass with odd-node promotion |
| MerkleLog.MerkleTree.Root | src/scitt_anchor.py:63-67 | the root property is the RFC 6962 tree hash of the leaves |
| MerkleLog.MerkleTree.GetInclusionProof | src/scitt_anchor.py:73-89 | fails exactly for indices out of bounds and otherwise returns the RFC 6962 audit path |
| MerkleLog.MerkleTree.CollectSteps | src/scitt_anchor.py:78-89 | the loop over the levels gathers the path of the specification |
| MerkleLog.MerkleTree.VerifyInclusion | src/scitt_anchor.py:91-101 | accepts exactly when the path folds to the root; index and size play no part |
| MerkleLog.MerkleTree.ProveAndVerify | src/scitt_anchor.py:73-101 | the proof of every leaf of every tree is accepted against that tree's root |
| RekorAnchor.RekorAnchorService.constructor | src/scitt_anchor.py:107-113 | a new service's log holds the genesis entry and nothing was requested |
| RekorAnchor.RekorAnchorService.AnchorCoseEnvelope | src/scitt_anchor.py:136-208 | raises exactly without a payload hash; a live submission that succeeds returns its response and leaves the local log; in every other case the log grows by the entry and the receipt is the one the run determines |
| RekorAnchor.RekorAnchorService.AnchorLocally | src/scitt_anchor.py:178-208 | the local branch appends the entry and issues the receipt that the run determines |
| RekorAnchor.RekorAnchorService.VerifyReceipt | src/scitt_anchor.py:210-241 | answers the acceptance predicate: entry present, path folds to the named root, head signature verifies |
| RekorAnchor.LogGrows | src/scitt_anchor.py:41-47 | in every run an earlier log is a prefix of every later one |
| RekorAnchor.ReceiptHoldsForever | src/scitt_anchor.py:178-208 | every receipt of a run has log_index = tree_size - 1, its root is the tree hash of that prefix of every later log, its leaf never changes, and it is accepted |
| RekorAnchor.ReceiptRecords | src/scitt_anchor.py:143-208 | an issued receipt carries its request's payload hash and signature, the service's key, the entry's digest, the time, the audit path, and the head text of its own size, root and time, signed |
| RekorAnchor.LogBeginsWithGenesis | src/scitt_anchor.py:112-113 | every log begins with the genesis text |
| RekorAnchor.TreeSizesGrow | src/scitt_anchor.py:179-208 | receipts of a run carry strictly growing tree sizes |
| RekorAnchor.SameSizeSameRoot | src/scitt_anchor.py:184-201 | receipts with one tree size over logs that extend each other carry one root and index |
| RekorAnchor.HeadBodyInjective | src/scitt_anchor.py:185-186 | the signed tree head text determines size, root and time |
| RekorAnchor.HeadDoesNotBindEntry | src/scitt_anchor.py:222-239 | the path is checked against the receipt's own root and the signature over the head's text, but the two are not compared: the head of any accepted receipt is accepted with a proof of any other entry |
| RekorAnchor.HeadNamesProofExactly | src/scitt_anchor.py:185-201 | a head signed in the run names a proof's size and root if and only if they are those of the log at that time |
| RekorAnchor.IssuedHeadsNameProofs | src/scitt_anchor.py:184-206 | every receipt that the service issues has a head that names its proof |
| RekorAnchor.UnsignedIsRefused | src/scitt_anchor.py:233-241 | a receipt whose head does not verify, or that has none, is refused whatever else it holds |
| RekorAnchor.AcceptedHeadIsFromRun | src/scitt_anchor.py:233-241 | acceptance of a receipt that is not forged leads back to a request whose head it carries |
| RekorAnchor.AcceptedReceiptIsLogged | src/scitt_anchor.py:210-241 | any accepted receipt, however it was made but for the signature, whose head names its proof is for an entry of the log, then and ever after, at the position its path spells, or a collision is exhibited |
| ByteOrder.BigEndianValue | src/scitt_cose/cbor_encoder.py:44-50 | packed big-endian numbers read back |
| ByteOrder.BigEndianOrder | src/scitt_cose/cbor_encoder.py:81-81 | packed numbers of one width are ordered bytewise as the numbers are |
| KeyedSort.SortOrdered | src/scitt_cose/cbor_encoder.py:81-81 | sorting by (length, bytes) orders distinct keys strictly |
| KeyedSort.OrderedUnique | src/scitt_cose/cbor_encoder.py:81-81 | an ordered list is determined by its elements |
| KeyedSort.SortIgnoresOrder | src/scitt_cose/cbor_encoder.py:78-81 | the sorted list does not depend on insertion order |
| Cbor.ReadLength | src/scitt_cose/cbor_encoder.py:98-113 | a length that is read ends inside the data; short data and reserved indicators are errors |
| Cbor.CborDecodeStream | src/scitt_cose/cbor_encoder.py:88-152 | the cursor-driven decoder with its loops computes the decoding function at every offset of every input, malformed ones included |
| Cbor.ReadItems | src/scitt_cose/cbor_encoder.py:125-130 | the array loop reads that many items in order |
| Cbor.ReadEntries | src/scitt_cose/cbor_encoder.py:131-137 | the map loop assigns that many entries in order |
| Cbor.CborDecode | src/scitt_cose/cbor_encoder.py:155-158 | decodes at offset zero and drops the rest |
| CborTheorems.HeadReads | src/scitt_cose/cbor_encoder.py:38-52 | every header below 2^64 reads back its major type and number and stops behind itself |
| CborTheorems.ScalarReads | src/scitt_cose/cbor_encoder.py:57-72 | null, booleans, integers of 64 bits either way, byte strings and text read back |
| CborTheorems.EncodeIsPlain | src/scitt_cose/cbor_encoder.py:73-83 | sorting encoded pairs equals encoding the sorted entries, at every depth |
| CborTheorems.PlainReads | src/scitt_cose/cbor_encoder.py:125-137 | nested arrays and maps written in any order of entries read back in that order |
| CborCanonical.ScalarEncodingInjective | src/scitt_cose/cbor_encoder.py:80-80 | distinct dictionary keys have distinct encodings |
| CborCanonical.RoundTrip | src/scitt_cose/cbor_encoder.py:38-152 | for every encodable value and all surrounding bytes, decoding at its offset gives it back, dictionaries in sorted order, and the offset behind it |
| CborCanonical.PrefixFree | src/scitt_cose/cbor_encoder.py:55-85 | no encoding is a proper prefix of another; equal data means equal values |
| CborCanonical.EncodingIsCanonical | src/scitt_cose/cbor_encoder.py:76-83 | two values have one encoding if and only if they differ at most in the insertion order of dictionaries, at any depth |
| CborCanonical.SameHaveSameSorted | src/scitt_cose/cbor_encoder.py:76-83 | insertion order does not reach the output at any depth |
| CborCanonical.SameSortedAreSame | src/scitt_cose/cbor_encoder.py:76-83 | nothing but insertion order is lost by sorting |
| CborDecoded.DecodedEncodes | src/scitt_cose/cbor_encoder.py:88-152 | whatever decodes, from any data at any offset, has distinct keys, valid text and 64-bit numbers and lengths |
| CborDecoded.DecodedReencodes | src/scitt_cose/cbor_encoder.py:55-152 | whatever decodes can be encoded again; that decodes to its sorted form, and encoding the sorted form changes nothing |
| CborBytes.HeadLayout | src/scitt_cose/cbor_encoder.py:38-52 | where the type, the number and its length stand in a head, for every number below 2^64 |
| CborBytes.HeadIsShortest | src/scitt_cose/cbor_encoder.py:38-52 | no head of the same number is shorter: the preferred serialization of section 4.1 of RFC 8949 |
| CborBytes.InitialByte | src/scitt_cose/cbor_encoder.py:57-83 | the initial bytes of every kind of value, section 3.1 of RFC 8949 |
| CborBytes.TooLargeExactly | src/scitt_cose/cbor_encoder.py:51-52 | exactly which values raise: an integer beyond 64 bits either way at some depth |
| CborBytes.SameKeyExactly | src/scitt_cose/cbor_encoder.py:132-136 | which different keys a dictionary takes as one: True and 1, False and 0 |
| CborBytes.AssignWrites | src/scitt_cose/cbor_encoder.py:132-136 | a repeated key takes the later value and keeps its place, other keys keep theirs |
| CborBytes.TagKeysSpell | src/scitt_cose/cbor_encoder.py:138-141 | the dictionary of a tagged item, spelled out |
| CborBytes.SimpleValuesRead | src/scitt_cose/cbor_encoder.py:142-150 | false, true and null read as such, every other simple value and every float as null |
| CborBytes.ShortStringsRead | src/scitt_cose/cbor_encoder.py:119-124 | a string that the data cuts short is read as far as it goes; bad text raises |
| CborBytes.RefusedAtOnce | src/scitt_cose/cbor_encoder.py:90-113 | which first bytes raise, and how |
| CborBytes.InnerFaultsRaise | src/scitt_cose/cbor_encoder.py:125-141 | a fault inside an array, a dictionary or a tagged item is the fault of the whole |
| CborKeyOrder.SameMajorShorterIsLess | src/scitt_cose/cbor_encoder.py:81-81 | among keys of one major type, shorter encodings are bytewise smaller |
| CborKeyOrder.WhenOrderIsBytewise | src/scitt_cose/cbor_encoder.py:77-83 | keys are written length first (section 4.2.3 of RFC 8949), which is the bytewise order of section 4.2.1 if and only if no key of a smaller major type is longer than one of a larger |
| CborKeyOrder.MixedMajorsAreNotBytewise | src/scitt_cose/cbor_encoder.py:77-81 | a two-key map on which the two orders differ |
| Cose.ProtectedBytesBind | src/scitt_cose/cbor_encoder.py:178-178 | protected bytes are equal if and only if the headers are, empty headers included |
| Cose.SigStructureBinds | src/scitt_cose/cbor_encoder.py:188-197 | signed bytes are equal if and only if context, protected headers, external data and payload are (section 4.4 of RFC 9052) |
| Cose.SigStructureDecodes | src/scitt_cose/cbor_encoder.py:188-197 | the signed bytes decode to context, protected headers, external data and payload in this order, with nothing left over |
| Cose.Sign1Decodes | src/scitt_cose/cbor_encoder.py:161-185 | a message decodes to tag 18, when tagged, and its four parts in order with nothing left over, and a tagged one begins with 0xD2 (section 4.2 of RFC 9052) |
| Cose.ProtectedDecodes | src/scitt_cose/cbor_encoder.py:178-178 | a non-empty protected part decodes to the headers |
| HclParser.HCLParser.constructor | src/hcl_compiler/parser.py:7-9 | the cursor starts at zero |
| HclParser.HCLParser.Parse | src/hcl_compiler/parser.py:11-35 | result, error and final cursor are those of the specification, for every text |
| HclParser.HCLParser.ParseBlockInto | src/hcl_compiler/parser.py:18-34 | one block is read and put into the dictionary, or the missing brace raises |
| HclParser.HCLParser.ReadHeader | src/hcl_compiler/parser.py:18-24 | block type, optional quoted name, and the cursor behind both |
| HclParser.HCLParser.ReadName | src/hcl_compiler/parser.py:21-24 | the quoted name, empty when there is none, and the space behind it |
| HclParser.HCLParser.SkipWhitespace | src/hcl_compiler/parser.py:37-45 | stops at the first character that is neither space nor comment |
| HclParser.HCLParser.ReadIdentifier | src/hcl_compiler/parser.py:47-51 | reads the longest run of identifier characters |
| HclParser.HCLParser.ReadString | src/hcl_compiler/parser.py:53-63 | returns the raw text between quotes, and may leave the cursor behind the end |
| HclParser.HCLParser.ParseBlockBody | src/hcl_compiler/parser.py:65-87 | the body loop, with nested blocks |
| HclParser.HCLParser.ParseFieldHere | src/hcl_compiler/parser.py:75-86 | a value behind an equals sign, a block behind a brace, or an error |
| HclParser.HCLParser.ParseValueHere | src/hcl_compiler/parser.py:89-124 | strings, lists and unquoted scalars |
| HclParser.HCLParser.ParseItems | src/hcl_compiler/parser.py:96-108 | the list loop, with its one state that never moves as an explicit outcome |
| HclParser.HCLParser.SkipCommaHere | src/hcl_compiler/parser.py:105-107 | spaces and at most one comma are skipped between items |
| HclLayout.CommentEnds | src/hcl_compiler/parser.py:41-43 | a comment ends at the first line break, or with the text |
| HclLayout.LeadSkips | src/hcl_compiler/parser.py:37-45 | any sequence of white space and comments is skipped |
| HclLayout.OnlyLeadSkipped | src/hcl_compiler/parser.py:37-45 | nothing but white space and comments is skipped |
| HclRoundTrip.ExprReads | src/hcl_compiler/parser.py:89-124 | every printed value parses to what it denotes and stops behind itself: nested lists with optional commas, white space and comments between elements, strings, integers, truth values in any spelling, dotted and plain words |
| HclRoundTrip.PrintedIntClassifies | src/hcl_compiler/parser.py:110-124 | every printed integer is read as that integer |
| HclRoundTrip.TruthClassifies | src/hcl_compiler/parser.py:115-118 | every upper- and lower-case spelling of true and false is a truth value |
| HclRoundTrip.BareClassifies | src/hcl_compiler/parser.py:119-124 | a bare word that is no number and no truth value reads as itself, anything with a dot as a dotted scalar |
| HclDocuments.PrintedBodyReads | src/hcl_compiler/parser.py:65-87 | every printed body parses to its fields up to its closing brace |
| HclDocuments.RoundTrip | src/hcl_compiler/parser.py:11-124 | parsing the printed form of any document, with white space and comments before items and blocks and at the end, gives the dictionary it denotes and ends with the text |
| HclDocuments.BareNameRaises | src/hcl_compiler/parser.py:18-34 | a document followed by a name without a brace raises at the end of the text |
| HclDocuments.KeyAloneRaises | src/hcl_compiler/parser.py:74-86 | inside a block a key with neither an equals sign nor a brace behind it raises |
| HclDocuments.OpenBlockAtEnd | src/hcl_compiler/parser.py:67-72 | a block that is opened at the end of the text counts, with no fields |
| HclDocuments.ValuesAtEnd | src/hcl_compiler/parser.py:53-108 | what a missing value, an open string and an open list at the end of the text read as |
| HclMeaning.BodyFieldsAreItems | src/hcl_compiler/parser.py:79-84 | with distinct keys a body denotes exactly its items |
| HclMeaning.DocumentDenotes | src/hcl_compiler/parser.py:29-32 | exactly what a document denotes: a type stands in the result if and only if a block has it, and a key of it holds the body of the last block of that name, failing that the field of an unnamed first block, and nothing else |
| HclMeaning.RepeatedUnnamedIsDropped | src/hcl_compiler/parser.py:29-30 | an unnamed block of a type that an earlier block has leaves no trace |
| HclMeaning.NamedBlockIsFound | src/hcl_compiler/parser.py:29-32 | named blocks with distinct names each stand in the result under type and name |
| HclMeaning.NamedEntryIsKept | src/hcl_compiler/parser.py:29-32 | no other named block rewrites an entry |
| HclProgress.ListTurnStallsAtBrace | src/hcl_compiler/parser.py:99-107 | a turn of the list loop moves the cursor unless it looks at a closing brace, and then it never does |
| HclProgress.StuckAtBrace | src/hcl_compiler/parser.py:11-35 | the only parses that do not end are at a closing brace |
| HclProgress.NoBraceNoStall | src/hcl_compiler/parser.py:11-124 | on a text without a closing brace the parser always ends |
| HclProgress.UnclosedListIsStuck | src/hcl_compiler/parser.py:96-107 | such texts exist |
| HclSpec.ParseBlocks | src/hcl_compiler/parser.py:13-35 | terminates on every text, and the cursor never moves back |
| HclSpec.ParseBlock | src/hcl_compiler/parser.py:18-34 | every block that is read moves the cursor forward |
| HclSpec.ParseField | src/hcl_compiler/parser.py:75-86 | every field that is read moves the cursor forward |
| NonceLedger.ApprovalNonceLedger.constructor | src/nonce_ledger.py:64-82 | a ledger opens with the rows of its database file |
| NonceLedger.ApprovalNonceLedger.RecordApproval | src/nonce_ledger.py:84-113 | inserts one pending row, or violates the primary key and changes nothing |
| NonceLedger.ApprovalNonceLedger.ConsumeNonce | src/nonce_ledger.py:115-201 | outcome and table are those of the undisturbed call, for every table |
| NonceLedger.SucceedsExactly | src/nonce_ledger.py:137-199 | succeeds if and only if the approval is pending under nonce and id, in time, for this scope and payload; what each refusal leaves |
| NonceLedger.RefusesExactly | src/nonce_ledger.py:147-185 | exactly which violation is raised when several apply, and the table each leaves |
| NonceLedger.CallEvolves | src/nonce_ledger.py:147-199 | no row is lost, no settled row changes, no approved value changes, consumption stays within the time to live |
| NonceRuns.StepIsAtomic | src/nonce_ledger.py:133-201 | under the write lock every statement is invisible or completes the undisturbed call |
| NonceRuns.CallsAreAtomic | src/nonce_ledger.py:133-201 | in every interleaving of any number of clients, every returned call acts as if alone at that moment |
| NonceRuns.AtMostOneSuccess | src/nonce_ledger.py:187-199 | in every interleaving at most one attempt per nonce succeeds, and it matches the approved row |
| NonceRuns.SettledForever | src/nonce_ledger.py:147-199 | CONSUMED and EXPIRED are never left in any run |
| NonceRuns.AlwaysInTime | src/nonce_ledger.py:164-173 | every consumed row satisfies consumed_at - created_at <= ttl in every reachable table |
| NonceRuns.RejectedLeavesPending | src/nonce_ledger.py:175-185 | refusals for scope or payload leave the table as it was and the row pending |
| NonceUnlocked.AtMostOneSuccess | src/nonce_ledger.py:187-197 | the conditional update alone gives at most one success per nonce, even with stale reads |
| NonceUnlocked.ConsumedCanBeOverwritten | src/nonce_ledger.py:165-170 | without the lock a run exists in which a consumed row becomes expired |
| IntentLedger.IntentLedger.constructor | src/intent_ledger.py:23-33 | a ledger opens with the rows of its database file |
| IntentLedger.IntentLedger.DeclareIntent | src/intent_ledger.py:35-54 | whichever pending row the query returns, the outcome is one the relation allows |
| IntentLedger.IntentLedger.ResolveIntent | src/intent_ledger.py:56-62 | writes the status of that intent only |
| IntentLedger.OneRowDecides | src/intent_ledger.py:37-46 | the arbitrary row decides correctly: a collision if and only if another agent has a pending intent on the target |
| IntentLedger.AdmittedWhenFree | src/intent_ledger.py:41-54 | another agent is admitted if and only if no pending intent remains on the target |
| IntentLedger.AdmittedIsRecorded | src/intent_ledger.py:48-54 | an admitted declaration adds the intent as pending with its own parts and touches no other row |
| IntentLedger.ResolveWrites | src/intent_ledger.py:56-62 | a write changes the status of that intent and nothing else |
| IntentLedger.HeldUntilSettled | src/intent_ledger.py:35-62 | a target is held from declaration to settlement: every other agent collides until then and is let in afterwards |
| IntentLedger.ResolveKeepsExclusive | src/intent_ledger.py:56-62 | ownership stays single if and only if the write does not reopen an intent next to another agent's |
| IntentLedger.ReachableIsExclusive | src/intent_ledger.py:35-62 | in every reachable ledger all pending intents on a target belong to one agent |
| TransportObserver.WhatClassificationMeans | src/transport_observer.py:69-123 | exactly when each disposition is produced, for all arguments |
| TransportObserver.ObserveToolCall | src/transport_observer.py:126-185 | answer and observation for each kind of outcome, and the status written to the intent |
| TransportObserver.ObservedCallsSettle | src/transport_observer.py:126-185 | for every number of request bytes no outcome leaves the intent pending, and it is settled as confirmed if and only if a result is passed on |
| TransportObserver.PassedOnWhenConfirmed | src/transport_observer.py:131-185 | passing a result on and observing it as confirmed agree if and only if request bytes were written or the result has a status |
| TransportObserver.WhatIsObserved | src/transport_observer.py:135-185 | for each outcome the disposition, the quarantine flag, the observation's fields and the status written: timeouts and broken connections are unconfirmed and quarantined, other exceptions mean nothing was sent, results are classed by their status |
| TransportObserver.NothingSent | src/transport_observer.py:131-185 | without request bytes every outcome is observed as never dispatched |
| Gate.SmaosPreDispatchGate.constructor | src/smaos_gate.py:95-103 | a gate over given ledgers has dispatched nothing |
| Gate.SmaosPreDispatchGate.AdmitAndDispatch | src/smaos_gate.py:126-147 | the target runs only behind a consumed nonce and a declared intent, once, with the caller's headers and this payload's key over them; every failure leaves it uncalled |
| Gate.OutboundHeadersBind | src/smaos_gate.py:134-147 | the outbound headers are the caller's with one key over them, made of session, number and payload digest |
| Gate.DispatchKeysAgree | src/smaos_gate.py:134-147 | two dispatches carry one key if and only if session, number and payload agree, or the UUID function collides |
| Gate.OpenEffectsAreQuarantined | src/smaos_gate.py:141-147 | a dispatched call that times out, loses its connection or meets a server error returns nothing, is quarantined, and leaves its intent unconfirmed |
| GateRuns.OneCallInSteps | src/smaos_gate.py:126-147 | every answer and effect a call may have, refusals and collisions included, is that of steps of the run machine |
| GateRuns.AdmissionsRefine | src/smaos_gate.py:126-132 | every statement of interleaved consume_nonce clients is an admission step of the run machine or changes nothing |
| GateRuns.DispatchedOncePerNonce | src/smaos_gate.py:126-147 | in every run the target runs at most once per nonce, and only for the approved payload, scope and approval, in time |
| GateRuns.DispatchesAreCovered | src/smaos_gate.py:126-147 | dispatches <= consumed nonces <= approvals in every run |
| GateRuns.ReturnedCallsAreSettled | src/smaos_gate.py:138-147 | no intent declared by a returned call is pending, and targets keep one owner |
| CowSpec.EditShows | src/cow_subgraph_sandbox.py:64-84 | an accepted edit shows at once, every other node reads as before, and only the trace changes besides; a closed branch refuses |
| CowSpec.EdgeShows | src/cow_subgraph_sandbox.py:86-103 | an accepted edge carries its own parts and an id made of them; a closed branch refuses |
| CowSpec.NewBranchReadsAsParent | src/cow_subgraph_sandbox.py:44-62 | a new branch carries its names and the root it was forked at and reads as its parent |
| CowSpec.DeltaHashBinds | src/cow_subgraph_sandbox.py:105-116 | delta hashes agree if and only if names and deltas do, or two manifests collide |
| CowSpec.MerkleRootBinds | src/cow_subgraph_sandbox.py:137-145 | roots agree if and only if nodes and edges by id do, or two states collide |
| CowSpec.MergeShowsTheBranch | src/cow_subgraph_sandbox.py:244-249 | after a merge the graph shows every node as the branch showed it just before |
| CowSpec.MergeRecords | src/cow_subgraph_sandbox.py:254-264 | what a merge adds to the history, field by field |
| CowSpec.MergesExactlyWhen | src/cow_subgraph_sandbox.py:192-242 | a merge goes through if and only if branch, payload, signature, key and any named delta hash are right |
| CowSpec.RefusalsInOrder | src/cow_subgraph_sandbox.py:192-242 | which fault is reported when several apply |
| CowSpec.MergedHashIsNamed | src/cow_subgraph_sandbox.py:216-221 | a receipt that merges a branch names the branch's delta hash, as the docstring asks, if and only if it names any |
| CowSpec.ReceiptBindsExactly | src/cow_subgraph_sandbox.py:192-242 | a receipt that merges one branch merges another active branch if and only if it names no delta hash or both have the same one |
| CowRuns.HashlessReceiptMerges | src/cow_subgraph_sandbox.py:214-267 | a signed confirmation without a delta hash merges any active branch, whatever it holds |
| CowSpec.SortEdgesSorts | src/cow_subgraph_sandbox.py:143-143 | the sort keeps the edges and puts no larger id before a smaller |
| CowSpec.StringLessMeans | src/cow_subgraph_sandbox.py:143-143 | ids are compared by their first difference in code points, a proper prefix first |
| CowSpec.SortIgnoresOrder | src/cow_subgraph_sandbox.py:137-145 | with distinct ids the sorted edges depend only on which edges there are |
| CowSpec.OverlaysCommute | src/cow_subgraph_sandbox.py:244-249 | two overlays commute if and only if they agree wherever both write |
| CowSpec.MergesCommute | src/cow_subgraph_sandbox.py:244-264 | merging branches on disjoint nodes with distinct edge ids in either order gives the same nodes, root and last committed root |
| CowGraph.COWBranch.constructor | src/cow_subgraph_sandbox.py:44-55 | a new branch is active, empty, and based on the parent's root |
| CowGraph.COWBranch.GetNode | src/cow_subgraph_sandbox.py:57-62 | reads the own delta first, tombstones as absent, then the live parent |
| CowGraph.COWBranch.SetNode | src/cow_subgraph_sandbox.py:64-73 | writes the delta of an active branch; any other is left as it was |
| CowGraph.COWBranch.DeleteNode | src/cow_subgraph_sandbox.py:75-84 | writes a tombstone to an active branch; any other is left as it was |
| CowGraph.COWBranch.AddEdge | src/cow_subgraph_sandbox.py:86-103 | appends the edge record to an active branch; any other is left as it was |
| CowGraph.COWStateGraph.constructor | src/cow_subgraph_sandbox.py:125-129 | a new graph holds the initial nodes and nothing else |
| CowGraph.COWStateGraph.GetNode | src/cow_subgraph_sandbox.py:131-135 | the node's data, or none for an unknown id |
| CowGraph.COWStateGraph.Fork | src/cow_subgraph_sandbox.py:147-155 | a fresh registered branch; the graph is unchanged |
| CowGraph.COWStateGraph.Examine | src/cow_subgraph_sandbox.py:192-242 | the checks in the source's order give the refusal of the specification |
| CowGraph.COWStateGraph.MergeIfVerified | src/cow_subgraph_sandbox.py:177-267 | a refused merge leaves nodes, edges and history and discards an active branch; otherwise the whole new state of graph, branch and registry |
| CowGraph.COWStateGraph.ApplyNodes | src/cow_subgraph_sandbox.py:244-249 | the loop over node deltas computes the overlay, in whatever order the keys come |
| CowGraph.COWStateGraph.ApplyEdges | src/cow_subgraph_sandbox.py:251-252 | the loop over edge deltas appends them all in order |
| CowGraph.COWStateGraph.DiscardBranch | src/cow_subgraph_sandbox.py:269-275 | marks the branch, whatever its status, and unregisters its id |
| CowRuns.Perform | src/cow_subgraph_sandbox.py:44-275 | every call on the objects is one step of the run machine |
| CowRuns.RunIsReplay | src/cow_subgraph_sandbox.py:244-265 | in every run nodes and edges are the replay of the merged branches in commit order, every commit carries its delta hash and the root of its prefix of the replay, and no branch is committed twice |
| CowRuns.OnlyMergesShow | src/cow_subgraph_sandbox.py:64-103 | branch edits, forks, discards and refused merges never change the graph; a merge shows exactly the branch's view |
| CowRuns.ActiveBranchSays | src/cow_subgraph_sandbox.py:57-84 | in every run an active branch says of every node what its last edit said |
| CowRuns.ActiveBranchHolds | src/cow_subgraph_sandbox.py:86-103 | in every run an active branch holds exactly the edges added to it, in order |
| CowRuns.MergeShowsLastEdits | src/cow_subgraph_sandbox.py:244-252 | after fork, any calls and a merge, the graph shows the branch's last edit of every node it edited, the live graph elsewhere, and the branch's edges behind the others |
| CowRuns.AttemptCloses | src/cow_subgraph_sandbox.py:187-253 | a merge is tried once: accepted it closes the branch as merged, refused it discards it with its reason |
| CowRuns.ClosedForGood | src/cow_subgraph_sandbox.py:66-93 | a closed branch stays closed with the same deltas in whatever follows; only its label may still change, to DISCARDED |
| CowRuns.DiscardRelabels | src/cow_subgraph_sandbox.py:269-275 | a discard relabels a merged branch as discarded, although its work stays in the graph |
| CowRuns.CommitOrderIsImmaterial | src/cow_subgraph_sandbox.py:137-145 | in every run, if the merged branches write disjoint nodes and edge ids are distinct, any other commit order gives the same nodes and root |
| CowRuns.MergesSwap | src/cow_subgraph_sandbox.py:177-267 | two mergeable branches on disjoint nodes can be merged in either order, both times accepted, with the same nodes and root |
| Lei.ValidateIso17442Lei | src/dora_xbrl_compiler.py:34-46 | the loop computes the check, its ValueError included |
| Lei.Expand | src/dora_xbrl_compiler.py:39-44 | the loop expands digits to themselves and letters to two digits |
| Lei.VerifyIso17442Lei | src/jev_typed_router.py:246-259 | the loop computes the router's check on any text, for given text operations |
| Lei.RouterAgreesOnAscii | src/jev_typed_router.py:246-259 | on ASCII text the router's check equals the compiler's check on the stripped, upper-case text |
| Lei.RouterAgreesOnCodes | src/jev_typed_router.py:247-259 | on any text whose stripped, upper-case form is a code, both checks agree on that form |
| Lei.StripMeans | src/jev_typed_router.py:247-247 | stripping takes white space off both ends and leaves none there |
| Lei.UpperMeans | src/jev_typed_router.py:247-247 | upper case moves the small letters and nothing else |
| Lei.CheckIsRemainder | src/dora_xbrl_compiler.py:38-46 | on twenty code characters the check asks whether the MOD 97-10 remainder of the mixed one- and two-digit expansion is one |
| Lei.ExpandedValue | src/dora_xbrl_compiler.py:39-46 | the expanded number modulo 97 is the character-by-character remainder |
| Lei.NewlineRaises | src/dora_xbrl_compiler.py:36-46 | a code followed by a newline raises instead of answering |
| Lei.RaisesExactly | src/dora_xbrl_compiler.py:36-46 | the check raises if and only if its argument is a code followed by a newline |
| Lei.PassesExactly | src/dora_xbrl_compiler.py:34-46 | the check passes if and only if its argument is twenty digits and capital letters with remainder one |
| Lei.SubstitutionDetected | src/dora_xbrl_compiler.py:38-46 | exactly which single replacements keep a valid code valid; none within one kind |
| Lei.TranspositionDetected | src/dora_xbrl_compiler.py:38-46 | exchanging two different neighbours is missed exactly for the pairs {1,B}, {2,M}, {3,X} |
| Lei.OneCheckPair | src/dora_xbrl_compiler.py:45-46 | every 18-character prefix has exactly one valid check pair in 02..98 |
| Idempotency.BindingStringInjective | src/idempotency_binder.py:30-33 | the binding string determines session id, number and payload hash, even with colons in the session id |
| Idempotency.KeysAgree | src/idempotency_binder.py:30-38 | keys agree if and only if the three parts do, or the UUID function maps two different strings to one value |
| Idempotency.BindHeaders | src/idempotency_binder.py:40-44 | writes this payload's key into the caller's own dictionary, changes no other header, and returns that dictionary |
| Decimal.PrintIntInjective | src/idempotency_binder.py:33-33 | decimal printing of integers is injective |
| Decimal.PrintedIntReads | src/hcl_compiler/parser.py:122-122 | Python's int reads every printed integer back |
| Decimal.DigitsExactly | src/hcl_compiler/parser.py:122-122 | the digits that int accepts: single underscores between digits, and the number they stand for |
| Decimal.NumeralReads | src/hcl_compiler/parser.py:122-122 | int reads such digits with an optional sign and white space around them |
| Decimal.LetterIsNoNumber | src/hcl_compiler/parser.py:119-124 | text with a letter in it is no integer |

## Left out

- Lei.RouterAgreesOnAscii: says nothing about other text, where stripping, upper case and digit classes are parameters.
- HclParser.HCLParser.ReadIdentifier: letters and digits are the ASCII ones, because Unicode classes are not modelled.
- HclParser.HCLParser.ParseValueHere: an unquoted scalar with a dot is kept as its text, because floating point is not modelled; int reads ASCII digits only.
- HclParser.HCLParser.Parse: letters and digits are the ASCII ones, because Unicode classes are not modelled; dictionaries are maps, so insertion order is not captured; an unquoted scalar with a dot is kept as its text, because floating point is not modelled.
- Cbor.CborDecodeStream: floats and unassigned simple values decode to null as in the code; tuples as keys, recursion depth limits and memory limits are not modelled.
- CborCanonical.RoundTrip: strings whose UTF-8 encoding fails (lone surrogates) are outside, because the encoder raises on them.
- The CBOR encoder is modelled as recursive functions; its one local list is the list that is sorted.
- The network behind a live submission, whose outcome is a parameter; files, the SQLite engine and the command line. SQLite's write lock and atomic commit are taken as given.
- SHA-256, Ed25519, UUIDv5, base64, hexadecimal and JSON text themselves; they are parameters.
- Text as code points: texts are kept as UTF-8 bytes in the codec, and `ValidUtf8` is the decoder of section 4 of RFC 3629.
- The wording of exceptions and of discard reasons, durations and creation times that nothing reads.
- Python's limit on the number of digits that int reads.
- Sharing of the `leaves` list given to a tree, and of node dictionaries between callers, branches and graph: node data are values.
- `edge_tombstones`, which nothing fills, and `execute_isolated`, which only wraps a callable.
- Receipts that are not plain JSON dictionaries, and string status codes in tool results, which raise in the classifier.
- Two processes declaring intents at once: the query and the insert are one step here.
- The advisory plane of the gate, which changes no disposition, and the rest of the repository: reports, scrubbers, cascades without state, hash constructions under scheme names, and the foreign-key loops of the DORA register.
