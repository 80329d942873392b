# Verified model of the siqlah receipt ledger

siqlah signs usage receipts, batches them into Merkle trees, publishes signed checkpoints, and lets
witnesses cosign them. This project models that core in Dafny and proves what its protocols promise,
for all inputs and all runs.

- **Merkle engine** (`Splitting`, `MerkleTree`, `Inclusion`, `Consistency`, `ReferenceVerifiers`,
  `BoundaryRoots`). The hash is an arbitrary function from byte strings to 32-byte digests. Soundness
  never assumes that it is injective: each soundness theorem names a function that returns two
  different strings with the same hash whenever the conclusion fails. The generators append through a
  shared list and the verifiers run the loops and the cursor of the source; both are proved against
  recursive specifications, and these against each other and against the verifiers of RFC 9162
  sections 2.1.3.2 and 2.1.4.2.
- **Receipts** (`Json`, `Receipts`, `Signing`). Canonical bytes determine every field but the
  signature; sign-then-verify is characterised exactly.
- **Ledger** (`Ledger`, `SqliteStore`, `InterleavedBuilds`, `RootChain`, `SerialBuilds`,
  `ProofHandlers`, `Migration`). `BuildAndSign` is four store calls that run without a lock. `InterleavedBuilds` is a
  state machine in which any number of builds, appends and stops interleave at these calls;
  `RootChain` says exactly when the chain of previous roots survives, and `SerialBuilds` adds what holds
  when builds do not overlap. The store is an object whose methods are
  proved against one statement function each.
- **Note text** (`TextLines`, `Utf8`, `Base64`, `Decimal`, `CheckpointText`, `Cosignatures`, `Notes`,
  `Thresholds`, `Cosigning`). Byte-level printing, parsing and merging, and the k-of-n check.
- **Witness endpoints** (`WitnessEndpoints`, `CosignAgreement`, `CosignAccumulation`,
  `ServedThreshold`). The state
  machine with the endpoints and with every message the operator's key signs; submitters may send any
  bytes.

Signatures are a pair of functions with the one assumption that what was signed verifies. A theorem
that needs more shows a forgery instead: a message that verifies but was never signed.

`Open` and `Sign` of golang.org/x/mod/sumdb/note are not part of the repository. `Notes` states them as
functions: valid UTF-8 without control characters, split at the last blank line, at most a hundred
signature lines, one verified signature for a name and key hash, failure on an invalid signature by a
known key, unknown keys kept once, and `Sign` replacing signatures of the same key.

Round trips alone would also hold of a wrong format, so every format has a theorem in literal bytes,
digits or code points besides: hashed nodes, canonical receipts, signed payloads, hex, base64, decimal
sizes, UTF-8 and white space, note lines and the served note.

Where code and documentation differ, the model follows the code:

- The comments in internal/merkle/consistency.go:9 and :31 cite section 2.2 of RFC 6962; consistency
  proofs are section 2.1.2.
- The root of no leaves is 32 zero bytes (internal/merkle/merkle.go:55-57), not the hash of the empty
  string as in section 2.1 of RFC 6962.
- An ingested receipt has `verified` set after it is signed although the field is signed
  (internal/api/ingest.go:242-245); the format's documentation asks for the opposite order.
- `ExtractCosignatures` is documented to exclude the operator, and does not
  (internal/witness/cosign.go:80).

Integers are 64 bits where that matters: the doubling loop of `splitPoint`, the ranges of the migration
loop, `uint64(cp.TreeSize)`. Preconditions such as `n <= TWO62` are where the source returns.

Verify with `dafny verify dfyconfig.toml`.

## Model

| member | source | states |
|---|---|---|
| Splitting.SplitPoint | internal/merkle/proof.go:40-46 | For n up to 2^62 the loop on a 64-bit int ends without overflow and returns the split |
| Splitting.SplitIsLargestPower | internal/merkle/proof.go:39-46 | For n >= 2 the split k is a power of two with k < n <= 2k, as RFC 6962 section 2.1 requires |
| Splitting.SplitUnique | internal/merkle/proof.go:39-46 | It is the only such power of two |
| Splitting.SplitStable | internal/merkle/consistency.go:39-46 | Any m above the split of n and up to n splits at the same place, so the old and the new tree share their left subtree |
| Splitting.LoopEndsIffWithinRange | internal/merkle/proof.go:40-46 | The doubling loop on 64-bit ints ends exactly for n <= 2^62 |
| MerkleTree.EntriesRootOfNode | internal/merkle/merkle.go:61-69 | The root of two or more entries is the node hash of the roots of the two parts |
| MerkleTree.RootOfNothing | internal/merkle/merkle.go:54-59 | The root of no entries is 32 zero bytes |
| MerkleTree.RootOfOne | internal/merkle/merkle.go:27-34 | The root of one entry is the hash of the byte 0 and the entry |
| MerkleTree.RootOfParts | internal/merkle/merkle.go:39-69 | For any power of two k with k < n <= 2k the root of n entries is the hash of the byte 1, the root of the first k and the root of the rest, in that order |
| MerkleTree.NodeInputInjective | internal/merkle/merkle.go:39-47 | The string hashed for a node determines both children |
| MerkleTree.RootBinding | internal/merkle/merkle.go:54-69 | Equal roots of non-empty lists of any lengths: the lists are equal exactly when the descent finds nothing, otherwise it returns a hash collision |
| Inclusion.CollectPath | internal/merkle/proof.go:25-37 | Appends exactly the audit path to the shared list, leaving what was there |
| Inclusion.InclusionProof | internal/merkle/proof.go:12-22 | The audit path, or the error for an empty tree or an index out of range |
| Inclusion.VerifyInclusion | internal/merkle/proof.go:52-83 | The direction loop and the reversed fold accept exactly when the recursive root equals the given one and the index is in range |
| Inclusion.FoldUpIsRootFromPath | internal/merkle/proof.go:58-82 | Folding a path up with the top-down directions is the recursive root, for every path length |
| Inclusion.InclusionComplete | internal/merkle/proof.go:12-37 | Every generated path is accepted, at every index of every tree |
| Inclusion.InclusionSound | internal/merkle/proof.go:52-83 | For any claimed index, size and path length, accepted data is an entry of the tree, or a collision is returned |
| Inclusion.InclusionBinding | internal/merkle/proof.go:52-83 | At the tree's own size, an accepted claim is exactly the honest data and path if and only if the descent returns no collision |
| Inclusion.AuditPathLength | internal/merkle/proof.go:25-37 | The length of a generated path is the depth of its leaf |
| Inclusion.PathLengthBound | internal/merkle/proof.go:24-37 | At most ceil(log2 n) elements, as RFC 6962 section 2.1.1 states |
| Inclusion.LongerPathAccepted | internal/merkle/proof.go:58-82 | The length is not checked: a concrete one-leaf tree accepts a path of one node |
| Consistency.CollectConsistency | internal/merkle/consistency.go:33-48 | Appends exactly SUBPROOF of RFC 6962 section 2.1.2 to the shared list |
| Consistency.ConsistencyProof | internal/merkle/consistency.go:13-29 | The proof for two sizes, or the error for sizes that are not positive, decreasing or beyond the leaves |
| Consistency.VerifySubproof | internal/merkle/consistency.go:68-105 | The cursor moves by exactly the proof's length, fails exactly when the proof is too short, and the two roots are the ones that the consumed elements determine |
| Consistency.VerifyConsistency | internal/merkle/consistency.go:54-64 | Wherever the source returns, it accepts exactly when the sizes are in order, the whole proof is consumed and both roots come out |
| Consistency.ReturnsIffInRange | internal/merkle/consistency.go:58-105 | Past the guards the verifier returns exactly for old sizes above 0 and new sizes up to 2^62: a negative old size recurses forever, and above 2^62 the first `splitPoint` loop does not end |
| Consistency.ConsistencyComplete | internal/merkle/consistency.go:13-105 | For all 1 <= m <= n <= the number of leaves the generated proof is accepted for the two prefix roots |
| Consistency.ConsistencySound | internal/merkle/consistency.go:54-105 | A proof accepted against the true root is the generated one and its old root is the root of the prefix, or a collision is returned |
| Consistency.HistoryIsAppendOnly | internal/merkle/consistency.go:54-105 | In a sequence of heads linked by accepted proofs and ending in a true root, every head is that of a prefix, or a collision is returned |
| Consistency.SubProofLength | internal/merkle/consistency.go:33-48 | The generated proof has the length the verifier consumes |
| Consistency.ProofLengthBound | internal/merkle/consistency.go:33-48 | At most ceil(log2 n) + 1 elements, as RFC 6962 section 2.1.2 states |
| ReferenceVerifiers.InclusionAgreesWithReference | internal/merkle/proof.go:52-83 | The verifier of RFC 9162 section 2.1.3.2 accepts exactly what this one accepts on paths of the right length |
| ReferenceVerifiers.ConsistencyAgreesWithReference | internal/merkle/consistency.go:54-105 | The verifier of RFC 9162 section 2.1.4.2 accepts exactly the same proofs for all sizes 0 < first < second |
| BoundaryRoots.SplitPointUsize | tokenizer-rs/src/merkle.rs:21-27 | The loop on a 64-bit usize returns the same split, up to 2^63 |
| BoundaryRoots.BuildSubtreeOf | tokenizer-rs/src/merkle.rs:29-37 | The Rust recursion computes the Go subtree hash |
| BoundaryRoots.BoundaryRoot | tokenizer-rs/src/merkle.rs:41-50 | The hex of the Go root over the little-endian offsets, zeros for none |
| BoundaryRoots.BoundaryRootBinds | tokenizer-rs/src/merkle.rs:41-50 | Equal boundary roots fix the whole list of 32-bit offsets, or give a collision |
| BoundaryRoots.LittleEndianIs | tokenizer-rs/src/merkle.rs:45-48 | An offset is hashed as four bytes, the least significant first |
| Json.MarshalReadBack | pkg/vur/canonical.go:9-82 | With a string encoder that delimits itself and an injective number encoder, equal objects of one schema have equal members, although empty optional members are left out |
| Json.MarshalText | pkg/vur/canonical.go:77 | An object is a brace, the members that are written with commas between them, and a brace, byte by byte |
| Json.NameTextIs | pkg/vur/canonical.go:9-40 | Names are written character by character |
| Json.ValueTextIs | pkg/vur/canonical.go:77 | Integers are written in decimal with a minus sign for negative ones, booleans as `true` and `false` |
| Json.OmittedIff | pkg/vur/canonical.go:10-39 | A member is left out exactly when it is tagged so and holds the zero value of its type |
| Json.SampleEncoderIsSound | pkg/vur/canonical.go:9-82 | Those requirements can be met: a concrete encoder meets them |
| Receipts.CanonicalBytesDetermine | pkg/vur/canonical.go:44-82 | Canonical bytes are equal exactly when all fields but the signature are |
| Receipts.CanonicalText | pkg/vur/canonical.go:44-82 | The canonical bytes are the text of these members |
| Receipts.CanonicalMembers | pkg/vur/canonical.go:9-76 | The thirty members by name, with the field of the receipt that each one holds and whether it is left out when empty |
| Receipts.CanonicalNamesSorted | pkg/vur/canonical.go:42-44 | The names are in strict alphabetical order, as the comment on the function promises |
| Signing.SignReceipt | pkg/vur/signing.go:69-81 | Fills the signer type with `ed25519` when it is empty, and sets the signature to the hex of the signature over the receipt with that field empty; all other fields stay |
| Signing.VerifyReceipt | pkg/vur/signing.go:86-107 | Answers the verdict and leaves the receipt as it was |
| Signing.ReceiptVerdictIs | pkg/vur/signing.go:86-107 | For every receipt: no signature exactly when the text is empty, bad hex exactly when it spells no bytes, acceptance exactly when the bytes it spells, two digits each, verify for the receipt without it |
| Hex.DecodesSpelled | pkg/vur/signing.go:91-94 | A text decodes to some bytes exactly when it spells them, two hex digits in either case for each |
| Hex.EncodeAt | pkg/vur/signing.go:79 | Every byte is printed as its two lower-case digits, the high one first |
| Signing.SignThenVerify | pkg/vur/signing.go:69-107 | A receipt presented with another's signature is accepted exactly when it is the signed one, or the signature is a forgery for its bytes |
| Signing.SignedVerifies | pkg/vur/signing.go:69-107 | Whatever the encoder, a receipt that was signed verifies |
| Signing.SignReceiptWithSigner | pkg/vur/signing.go:17-40 | Field by field: kind and identity of the signer, the rest cleared, then the signature, certificate and log index that it returns; prepared and unsigned when it fails |
| Signing.SignerKeepsPayload | pkg/vur/signing.go:34-39 | The verified payload is the signed one exactly when the signer returns neither a certificate nor a positive log index |
| Signing.Ed25519SignerVerifies | internal/signing/ed25519.go:23-40 | Receipts signed by the Ed25519 signer verify, and name the type `ed25519` and the hex of the key |
| Signing.VerifyReceiptWithVerifier | pkg/vur/signing.go:43-65 | The verifier is asked about the canonical bytes of the receipt without its signature, with the five fields it is shown; the receipt stays as it was |
| Signing.Ed25519VerifierAgrees | internal/signing/ed25519.go:52-61 | With the Ed25519 verifier the answer is that of `VerifyReceipt` |
| Signing.BuildReceipt | internal/api/ingest.go:203-247 | Nothing when the usage cannot be parsed; otherwise every field of the receipt says which input it holds, bodies by their hex hash or empty text, and the signature is over the receipt with the flag not yet set |
| Signing.BuiltReceiptVerifiesIffForgery | internal/api/ingest.go:240-246 | An ingested receipt verifies exactly when its signature forges the bytes with the flag set |
| Signing.FlagBeforeSigningVerifies | internal/api/ingest.go:240-246 | With the flag set before signing it verifies |
| Ledger.StoredSignatureVerifies | internal/checkpoint/verify.go:13-37 | A signed checkpoint still verifies after its instant went through Unix seconds |
| Ledger.PayloadText | internal/checkpoint/payload.go:8-25 | What the operator signs, byte by byte: the six fields under their names |
| Ledger.PayloadDetermines | internal/checkpoint/payload.go:8-25 | Two payloads are equal exactly when range, size, both roots and instant are |
| Ledger.OperatorAccepts | internal/checkpoint/verify.go:13-37 | A checkpoint presented with another's operator signature is accepted exactly when these six fields agree, or the signature is a forgery |
| Ledger.OperatorVerdictIs | internal/checkpoint/verify.go:13-37 | For every checkpoint: no signature, bad hex and acceptance, each exactly when the text is empty, spells no bytes, or spells bytes that verify for the payload |
| Ledger.ChainOkIs | internal/checkpoint/verify.go:41-50 | The chain check is equality of the roots |
| Ledger.SavedCheckpointSpeaks | internal/checkpoint/builder.go:68-102 | The row that a build saves has the size, the root and a valid signature for exactly the rows fetched |
| SqliteStore.SQLiteStore.AppendReceipt | internal/store/sqlite.go:35-45 | Adds one row and returns its id, changing nothing else |
| SqliteStore.SQLiteStore.AppendReceiptsBatch | internal/store/sqlite.go:47-82 | Adds the rows in order with consecutive ids |
| SqliteStore.SQLiteStore.GetReceiptByID | internal/store/sqlite.go:84-100 | Some row with that receipt id, none exactly when there is none |
| SqliteStore.SQLiteStore.FetchUnbatched | internal/store/sqlite.go:112-120 | The first unflagged rows in ascending id order with their receipts, as many as the limit allows; what is not among them comes after them |
| SqliteStore.FetchedUnflagged | internal/store/sqlite.go:112-120 | The ids that the statement selects are exactly those |
| SqliteStore.SQLiteStore.MarkBatched | internal/store/sqlite.go:122-134 | Sets the flag of exactly the given rows that exist and changes nothing else |
| SqliteStore.SQLiteStore.GetReceiptsByRange | internal/store/sqlite.go:136-145 | Exactly the receipts of the rows in the range, in order |
| SqliteStore.SQLiteStore.SaveCheckpoint | internal/store/sqlite.go:147-159 | Appends the checkpoint with its instant cut to whole seconds and no log index yet, and returns its id |
| SqliteStore.SQLiteStore.GetCheckpointForRow | internal/store/sqlite.go:169-175 | Some checkpoint whose range covers the row, none exactly when there is none |
| SqliteStore.SQLiteStore.LatestCheckpoint | internal/store/sqlite.go:197-203 | The last saved checkpoint |
| SqliteStore.SQLiteStore.UpdateCheckpointRekorIndex | internal/store/sqlite.go:205-209 | The checkpoint, if it exists, gets the index and keeps its other fields; all other checkpoints and tables are unchanged |
| SqliteStore.SQLiteStore.AddWitnessSignature | internal/store/sqlite.go:211-218 | The signature of that witness for that checkpoint is the one given; all other signatures and tables are unchanged |
| SqliteStore.SQLiteStore.WitnessSignatures | internal/store/sqlite.go:220-236 | Exactly the signatures stored for the checkpoint, by witness |
| SqliteStore.SQLiteStore.StoreCosignature | internal/store/sqlite.go:238-243 | Adds a note under a root unless this pair is there, and changes nothing else |
| SqliteStore.SQLiteStore.GetCosignatures | internal/store/sqlite.go:245-261 | Exactly the notes under a root, in the order they were stored |
| SqliteStore.SQLiteStore.GetStats | internal/store/sqlite.go:263-278 | The number of rows, checkpoints, witness signatures, and of the rows whose flag is clear |
| InterleavedBuilds.StepKeeps | internal/checkpoint/builder.go:37-108 | Every event keeps the invariant and never shortens the batched prefix |
| InterleavedBuilds.EveryInterleavingKeeps | internal/checkpoint/builder.go:37-108 | Over every interleaving of appends, fetches, reads, saves, marks and stops: batched rows are a prefix of the ids, every saved checkpoint has the size, root and valid signature of exactly its rows, every batched row is covered |
| InterleavedBuilds.RunExtends | internal/store/sqlite.go:35-159 | Rows and checkpoints are only added; a saved checkpoint keeps everything but its log index |
| InterleavedBuilds.ChainBreaks | internal/checkpoint/builder.go:68-102 | A concrete interleaving of two builds after which the previous-root chain is broken |
| RootChain.ChainHoldsIff | internal/checkpoint/builder.go:68-102 | Over every interleaving, all consecutive checkpoints pass the chain check exactly when every save finds the latest root as its run read it |
| RootChain.UndisturbedKeepsChain | internal/checkpoint/builder.go:68-102 | The chain holds when no other run changes the latest root between the read and the save of a run, however builds overlap otherwise |
| RootChain.ChainHoldsIffUndisturbed | internal/checkpoint/builder.go:68-102 | Unless a root comes back after another one, that is also necessary |
| RootChain.DisturbedChainMayHold | internal/checkpoint/builder.go:68-102 | A concrete run in which a root comes back, and the chain holds although other runs changed the root in between |
| RootChain.LockKeepsChain | internal/checkpoint/verify.go:41-50 | A lock around reading the latest checkpoint and saving alone is enough for the chain |
| SerialBuilds.CompleteBuildIsRun | internal/checkpoint/builder.go:37-108 | A build that does not overlap others is the run with its four calls in a row |
| SerialBuilds.Builder.constructor | internal/checkpoint/builder.go:23-28 | A batch size that is not positive is replaced by 1000 |
| SerialBuilds.Builder.BuildAndSign | internal/checkpoint/builder.go:37-108 | The store ends as after fetch, read, save and mark; the new checkpoint is returned with its id, and it and the saved row are issued in the whole second of the clock; nothing changes when nothing is pending |
| SerialBuilds.BuildIsIssuedNow | internal/checkpoint/builder.go:74-102 | With t the clock in nanoseconds, the instant signed, returned and saved is a multiple of 10^9 and at most t, and t is less than 10^9 above it |
| SerialBuilds.BuildKeepsChain | internal/checkpoint/builder.go:37-108 | One build extends the chain by exactly the rows it takes |
| SerialBuilds.SerialHistoryIsChained | internal/checkpoint/verify.go:41-50 | In serial histories the ranges partition the batched prefix in order, consecutive checkpoints pass the chain check, and sizes add up to the prefix |
| SerialBuilds.SerialConservation | internal/store/sqlite.go:263-278 | Total receipts are the sum of the tree sizes plus the pending rows |
| SerialBuilds.DrainsInCeiling | internal/checkpoint/builder.go:37-108 | After n builds all but n batches of the pending rows are batched: P pending rows drain in exactly ceil(P / batch size) builds, each of which saves a checkpoint |
| SerialBuilds.SerialHistoryIsRun | internal/checkpoint/builder.go:37-108 | A serial history is one of the interleaved runs |
| SerialBuilds.SerialCheckpointsSpeak | internal/checkpoint/verify.go:13-37 | So all its checkpoints have the roots of exactly their rows and signatures that verify |
| ProofHandlers.Server.BuildLeavesAndIndex | internal/api/proof.go:164-181 | The leaf hashes of the receipts and the last index with the id, or -1 |
| ProofHandlers.Server.LeavesFromReceipts | internal/api/proof.go:184-194 | The leaf hashes of the receipts in order |
| ProofHandlers.Server.HexSlice | internal/api/proof.go:197-203 | The hex text of every hash in order |
| ProofHandlers.Server.HandleInclusionProof | internal/api/proof.go:34-82 | With builds and appends between its three store reads: a response repeats the id, names a checkpoint of the second read that covers a row with it, has the size and root of that checkpoint, and verifies for the row that many after its start; a receipt batched when the request came and with a unique id gets one. The other answers are exact: no such receipt, or a row with the id that no checkpoint covered |
| ProofHandlers.Server.HandleConsistencyProof | internal/api/proof.go:84-155 | With builds and appends between its four store reads: any two checkpoints with increasing ends get their ids, cumulative sizes and roots, and a proof that verifies; others are refused |
| ProofHandlers.RunIsReachable | internal/checkpoint/builder.go:37-108 | The tables of every interleaved run meet the condition under which the proof handlers are proved |
| ProofHandlers.RunsAreLater | internal/checkpoint/builder.go:37-108 | So do the tables at any moments of a run, in order |
| ProofHandlers.CumulativeRootIsStable | internal/api/proof.go:84-155 | The cumulative root for a checkpoint is the same at every later state of the run |
| Migration.TesseraStore.AppendReceipt | internal/store/tessera_store.go:46-59 | Adds the row and its canonical bytes to the log, and returns the row id |
| Migration.Migrate | cmd/siqlah/migrate.go:67-89 | On 64-bit ids the loop ends for every batch size; a positive one copies all rows and log entries once and in order, so every prefix root is that of the source; any other copies nothing |
| Migration.Add64Is | cmd/siqlah/migrate.go:67-89 | Ids are added as 64-bit ints: in range, and off by at most one multiple of 2^64 |
| Base64.DecodeEncode | internal/witness/checkpoint.go:28-62 | Decoding gives back what was encoded (RFC 4648 section 4) |
| Base64.SymbolIs | internal/witness/checkpoint.go:28-34 | The alphabet of RFC 4648 section 4 |
| Base64.EncodeGroupAt | internal/witness/checkpoint.go:28-34 | Three bytes are four symbols of six bits, the highest first, and what is missing at the end is zero bits and `=` |
| Base64.DecodesSpelled | internal/witness/checkpoint.go:59-62 | Exactly the texts that encode the bytes up to the unused bits of the last group decode to them, once line breaks are taken out |
| Decimal.ParseUint64RoundTrip | internal/witness/checkpoint.go:28-58 | Printed sizes parse back exactly up to 2^64 - 1 |
| Decimal.DigitsSpell | internal/witness/checkpoint.go:28-34 | Sizes are printed in base ten, the last digit being n modulo 10, without a leading zero |
| Decimal.ParsesIff | internal/witness/checkpoint.go:55-58 | Exactly the non-empty strings of digits for numbers below 2^64 are sizes |
| CheckpointText.ParseFormat | internal/witness/checkpoint.go:28-71 | Printing then parsing gives back origin, size and root, alone or before signatures, exactly when the origin has no newline and the root is not empty |
| CheckpointText.BodyLines | internal/witness/checkpoint.go:28-34 | The lines of a printed checkpoint are the origin, the size and the root, in this order |
| CheckpointText.ParsesIff | internal/witness/checkpoint.go:45-71 | A text parses to a checkpoint exactly when there are three lines before any blank line, the first is the origin, the second spells the size and the third the root |
| CheckpointText.ParseErrorIs | internal/witness/checkpoint.go:51-62 | Which error it is otherwise |
| CheckpointText.FormatHasNoBlankLine | internal/witness/checkpoint.go:28-34 | A printed body has no blank line |
| CheckpointText.ParsersAgree | internal/tessera/signer.go:66-90 | Whatever `ParseCheckpoint` accepts, the second parser reads with the same size and root |
| CheckpointText.SecondParserIs | internal/tessera/signer.go:66-90 | The second parser reads exactly the size that the second of four pieces spells, and the root that the third does, with white space around them taken off |
| CheckpointText.SecondParserTakesMore | internal/tessera/signer.go:66-90 | Of the texts the second parser takes, `ParseCheckpoint` takes exactly those with three lines before any blank line, no space around the size and a root line that decodes as it stands |
| Utf8.RuneEncoded | internal/tessera/signer.go:66-90 | What starts with an encoded scalar value (RFC 3629 section 3) starts with a rune of that length |
| Utf8.RuneDecoded | internal/tessera/signer.go:66-90 | Every rune that is recognised is one encoded scalar value |
| Utf8.SpaceAtEnds | internal/tessera/signer.go:66-90 | White space at either end is recognised exactly for the white space code points of Unicode |
| CheckpointText.SpaceBeforeSize | internal/tessera/signer.go:66-76 | A concrete text that only the second parser takes |
| Cosignatures.MergeCosignatures | internal/witness/cosign.go:14-66 | The loops with the seen set compute the merge, or the error for a note without a blank line |
| Cosignatures.MergedSplits | internal/witness/cosign.go:14-66 | The merged note splits at its first blank line into the operator's body and the first occurrences of all signature lines |
| Cosignatures.NoteLinesStep | internal/witness/cosign.go:25-48 | The signature lines of a note, line by line after its first blank line: those that begin with an em dash and a space, without carriage returns at their end |
| Cosignatures.PrefixIs | internal/witness/cosign.go:29 | The prefix is U+2014 and a space |
| Cosignatures.FirstOccurrencesOf | internal/witness/cosign.go:25-54 | The de-duplicated lines are the same lines, each once |
| Cosignatures.MergeTwice | internal/witness/cosign.go:14-66 | Merging in two steps is merging at once |
| Cosignatures.MergeKnown | internal/witness/cosign.go:14-66 | Merging notes whose lines are all present changes nothing |
| Cosignatures.ExtractCosignatures | internal/witness/cosign.go:69-86 | The trimmed signature lines without those the comparison from the third byte matches |
| Cosignatures.ExtractedStep | internal/witness/cosign.go:69-86 | Line by line after the first blank line, what comes out of each |
| Cosignatures.ExtractionExcludesNothing | internal/witness/cosign.go:80-82 | For every name that starts with valid UTF-8 no line is left out, the operator's included |
| Notes.OpenIsSane | internal/witness/checkpoint.go:75-79 | A note that opens has only verified, well-formed signatures, one for each name and hash, over the text before the last blank line |
| Notes.OpenReassembled | internal/witness/checkpoint.go:38-41 | A text with signature lines appended is taken apart where it was put together |
| Notes.ParsesIff | internal/witness/checkpoint.go:75-79 | Exactly the lines of well-formed signatures are read as signatures |
| Notes.LineOfIs | internal/witness/checkpoint.go:38-41 | The bytes of a signature line |
| Thresholds.VerifyCosignedCheckpoint | internal/witness/verify.go:16-66 | The three loops compute the verdict, with the error for every failure |
| Thresholds.AcceptedIffVouched | internal/witness/verify.go:16-66 | With distinct key names the check accepts exactly when the note opens, the operator's key verifies a line over its text, and at least `threshold` different required witnesses do |
| Thresholds.AcceptedIff | internal/witness/verify.go:16-66 | For any keys, acceptance compares names only: a known key with the operator's name vouches, and at least `threshold` name and hash pairs under names of required witnesses do |
| Thresholds.RefusedIff | internal/witness/verify.go:17-65 | Each of the four refusals exactly when it is due |
| Thresholds.OpensIffReadable | internal/witness/verify.go:26-35 | Signature lines open exactly when there are at most a hundred, all are well formed, none is under two known keys, and the first line under each known key verifies |
| Thresholds.OpensIff | internal/witness/checkpoint.go:75-79 | A message opens exactly when it is framed as a note, its lines are readable and a known key vouches for its text |
| Thresholds.FirstBadLine | internal/witness/checkpoint.go:75-79 | The first line that spoils the lines decides which error it is |
| Cosigning.CosignedNote | internal/witness/client.go:55-72 | Cosigning what the operator serves adds the witness's line after the operator's |
| Cosigning.CosignsIff | internal/witness/client.go:55-72 | Whatever it is sent, a witness cosigns exactly what is readable and the operator's key vouches for, and what it signs is the text that was verified |
| Cosigning.MergedNote | internal/api/witness.go:129-146 | Merging the witnesses' notes gives the text with the operator's line and one line of each |
| Cosigning.MergedNotePasses | internal/witness/verify.go:16-66 | After distinct witnesses cosigned, the merged note passes threshold k exactly when at least k and fewer than a hundred did |
| WitnessEndpoints.WitnessServer.HandleC2SPCheckpoint | internal/api/witness.go:16-49 | The latest checkpoint's body signed by the operator, or the failure |
| WitnessEndpoints.ServedNoteIs | internal/api/witness.go:16-49 | The served note byte by byte: origin, size modulo 2^64 and root of the latest checkpoint, a blank line and the operator's signature line over this text |
| WitnessEndpoints.ServedNoteFails | internal/api/witness.go:18-45 | Nothing is served exactly when there is no checkpoint, its root is not hex, or the origin cannot be a key name |
| WitnessEndpoints.ServedParses | internal/api/witness.go:16-49 | Whoever parses the served note gets the origin, size and root of the latest checkpoint |
| WitnessEndpoints.WitnessServer.HandleC2SPCosign | internal/api/witness.go:53-94 | Answers the verdict; what is taken is stored as it came under the hex of the root it names, and a refusal changes nothing |
| WitnessEndpoints.TakenIff | internal/api/witness.go:68-83 | A submission is taken exactly when it parses, is readable, the operator's key vouches for it, and the text vouched for parses by itself |
| WitnessEndpoints.WitnessServer.HandleC2SPCosignedCheckpoint | internal/api/witness.go:98-147 | The served note merged with every note stored under its root |
| WitnessEndpoints.CosignedCheckpointIs | internal/api/witness.go:98-147 | It fails only when nothing is served, and is otherwise the merge of the served note with the notes under the hex of its root |
| CosignAgreement.HistoryKeeps | internal/api/witness.go:53-94 | In every reachable state the ledger invariant holds, only bodies of saved checkpoints were signed as note text, and every stored note was accepted under the root it names |
| CosignAgreement.NotesUnderOneRootAgree | internal/api/witness.go:85-89 | A note stored under a checkpoint's root has that checkpoint's body, whichever checkpoint with the root it is, or a forgery or a hash collision is shown |
| CosignAccumulation.MergeKeepsVouching | internal/witness/cosign.go:38-54 | A key that vouches for the text in one of the notes vouches for it in the merged note |
| CosignAccumulation.CosignaturesAccumulate | internal/api/witness.go:98-147 | In every reachable state a key that vouches for a note stored under the latest root vouches for the served note, or a forgery or a hash collision is shown |
| ServedThreshold.ServedPassesIff | internal/api/witness.go:98-147 | In every reachable state, whatever was submitted, the served note passes threshold k exactly when its lines are readable with the known keys and at least k name and hash pairs vouch under names of required witnesses |
| ServedThreshold.WitnessesReachThreshold | internal/api/witness.go:53-147 | From every reachable state with nothing stored under the latest root, after distinct witnesses fetch, cosign and submit while anything but a save goes on, the served note passes threshold k exactly when at least k and fewer than a hundred did |

## Left out

- HTTP routing, content types, middleware, command lines, configuration, tickers, feeders and monitors: plumbing around the modelled calls.
- The single `Read` at internal/api/witness.go:60, which may return part of a body: the model starts from the bytes that were read.
- SHA-256, Ed25519, Fulcio, Rekor, certificates: the hash is any function, signatures any pair in which signing verifies.
- The text form of note keys and the key hash (internal/witness/endpoint.go): a key has any four bytes as its hash.
- Error paths of a failing database, apart from builds that stop between two calls; SQL itself: statements are atomic, ids count from 1, nothing is deleted.
- The storage of receipts as JSON and back: rows hold the receipt value.
- Timestamps as instants with a spelling parameter: time zones and years outside the JSON format are not modelled.
- String escapes and the spelling of floats: parameters assumed to delimit themselves and to be injective, so strings that are not valid UTF-8, NaN, infinities and negative zero are outside; floats are taken by their fields, without arithmetic.
- TesseraBuilder: its ranges count from 0 while the proof endpoints read ranges as row ids counting from 1, so the ledger theorems are about `Builder`.
- The Tessera library, its integration delays, its own tree and its proofs: the log is a sequence of entries, and its roots are those of the Merkle engine.
- WitnessEndpoints.WitnessServer.HandleC2SPCosignedCheckpoint: its two store reads see one state.
- `watch` in cmd/witness/main.go, which compares per-batch tree sizes and skips a later, smaller batch.
- Provider adapters, energy and carbon tables, the model registry and attestations: their results enter `BuildReceipt` as parameters.
- SerialBuilds.Builder.BuildAndSign: it reads the clock through a parameter, and the two failures of encoding and signing are not modelled.
- Inclusion.VerifyInclusion: tree sizes above 2^62 with a non-empty proof are excluded, because the loop of `splitPoint` does not return there.
- Consistency.VerifyConsistency: the sizes for which the source does not return are excluded, negative old sizes and new sizes above 2^62 that pass the guards; `ReturnsIffInRange` says exactly which these are.
- Migration.Migrate: at most 2^62 source rows.
- Thresholds.AcceptedIffVouched: for keys with pairwise different names; `AcceptedIff` says for all keys what is accepted.
