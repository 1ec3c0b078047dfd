# SafeHub: a model of its log, its readers and its keys

SafeHub hosts Git repositories on a server that is not trusted with their contents. The server keeps
a compare-and-swap log of signed ref heads and a content-addressed store of ciphertext. Clients plan,
seal and push; readers page, verify, decrypt and compare. This project models those parts in Dafny
and proves what they promise, for every input, run and interleaving.

`dafny verify dfyconfig.toml` checks all of it.

## Layout

| part | files |
|---|---|
| bytes, text, ordered maps, primitives | `Bytes`, `Text`, `OrderedMaps`, `Primitives` |
| the ref-head codec and its second decoder | `RefHeads`, `PythonDecoder`, `HeadFormats` |
| the server log, crashes and listing | `HeadStore`, `CrashSafety`, `Paging`, `PagingGuarantees` |
| concurrent pushes | `Reconcile`, `PushProtocol`, `PushGuarantees`, `PushProgress`, `Pushes` |
| reading | `FetchVerify`, `AcceptedRuns`, `ReaderGuarantees` |
| comparing views | `ForkCompare`, `ForkTheory`, `ForkVerdicts`, `ForkGuarantees` |
| consolidation receipts | `Merkle`, `Consolidation`, `ConsolidationGuarantees`, `AcceptedReceipts` |
| sealing, chunks, blobs, bundles | `Aead`, `Chunker`, `BlobStore`, `Bundles`, `SealGuarantees` |
| key windows | `Dkr`, `EpochKeys` |
| policy | `Quorum`, `QuorumGuarantees`, `FastForward`, `BranchProtection` |

Code that updates state is modelled by methods, loops and classes whose postconditions tie them to
specification functions; the results are lemmas about those functions. SHA-512, HMAC, HKDF and
signature checking are arbitrary functions of fixed output length. No result assumes that a hash is
injective, which no 64-byte hash is: each names the finite set of strings or heads involved and
supposes that no two members of that set collide. Random seeds, nonces and keys are parameters.

## Findings

The model follows the code. Where the code does less than its comments or its callers may expect, the
exact condition is proved.

- A crash between the two writes of an append leaves a head above the tip. The listing serves it and
  readers accept it, and a later append may replace it (`CrashSafety.UncommittedIsReplaceable`, and from
  an empty store `CrashSafety.CrashedAppendIsReplaced`). A reader that has accepted the replaced head
  first notices nothing: its fetch succeeds with no new heads (`ReaderGuarantees.ReplacementIsSilent`).
  Once the log has grown, a full-history reader has every fetch refused
  (`ReaderGuarantees.ReplacedReaderIsStuck`); `ReaderGuarantees.IncrementAcceptedIff` is the exact condition.
- A forward-only member whose grant reaches no listed head, while the tip is ahead, is told that heads are
  withheld (`ReaderGuarantees.HonestFetch`, `ReaderGuarantees.NewMemberIsTurnedAway`).
- An anchored fetch does not check that numbering continues across the anchor
  (`FetchVerify.TwoFetchesAreOne`, `FetchVerify.NumberingJumpAccepted`).
- An unforced push ignores the deletions its caller asked for and still succeeds (`Reconcile.MergeUnraced`).
- The two decoders agree on fields, but the Python tool hashes the raw bytes and the Rust code hashes
  the re-encoding, which differs from them unless both flag bytes are 0 or 1 (`RefHeads.Reencoding`,
  `RefHeads.FlagTwoIsRewritten`).
- `inherit` keeps an epoch's transport seed and drops its token. A forward-only invitation makes these
  differ, so the epoch it opens becomes unreadable at the next commit, to the admin as well
  (`EpochKeys.ReadableIff`, `EpochKeys.ForwardOnlyInviteThenRotateOrphans`).
- From epoch 2^20 on no superseded epoch is readable, and each derivation for the current epoch draws a new
  seed, so a head cannot be read back even by the device that sealed it (`EpochKeys.CurrentReadableIff`,
  `EpochKeys.NewSegmentOrphansCurrentEpoch`).
- The chunk count is cut to 32 bits, so a bundle of 2^32 chunks or more is truncated on push
  (`Bundles.RoundTripIff`, `Chunker.LargestBundleIsLost`).
- Blobs are written in place. A write cut short leaves a torn file that later uploads of the same ciphertext
  keep (`BlobStore.TornWriteIsKept`); `BlobStore.UploadStoresIff` says when a chunk is stored all the same.
- A branch whose recorded name is empty or all zeros may move anywhere without a co-signature
  (`BranchProtection.NullBranchIsUnprotected`). A partial object graph that lacks the path between two
  commits it holds rejects a true fast-forward instead of calling it unverifiable
  (`BranchProtection.ContradictsIffPathMissing`, `BranchProtection.GraftContradicts`).
- The decoder reads bundles that the encoder never writes: one of threshold zero authorizes a receipt or
  co-signs a head without any signature. Acceptance shows a signature exactly when the threshold, the fifth
  byte, is not zero (`QuorumGuarantees.AuthorizedMeansSignedIff`, `QuorumGuarantees.CosignedMeansSignedIff`,
  `QuorumGuarantees.UnsignedReceiptAccepted`).
- On a receipt a threshold counts signatures and not signers, so it shows that many signers only up to one
  (`QuorumGuarantees.ThresholdCountsSignersIff`) or when no key verifies two of them
  (`QuorumGuarantees.ValidSignaturesCountSigners`). On a head it counts signers exactly when no key that a
  bundle can address is listed twice (`QuorumGuarantees.CosignersCountIff`).

## Model

| member | source | states |
|---|---|---|
| RefHeads.EncodeRefHead | code/crates/safehub-types/src/canon.rs:10-40 | appending field after field produces the layout function that the codec results below are about |
| RefHeads.DecodeRefHead | code/crates/safehub-types/src/canon.rs:43-95 | consuming the buffer field by field computes the staged decoder, errors included |
| RefHeads.DecodeAcceptsExactly | code/crates/safehub-types/src/canon.rs:43-95 | a string decodes to a head if and only if it is the layout of that head with flag bytes that are zero or non-zero as the record says |
| RefHeads.RoundTrip | code/crates/safehub-types/src/canon.rs:20-95 | decoding inverts encoding for every head whose opaque fields fit their 32-bit prefix |
| RefHeads.EncodeInjective | code/crates/safehub-types/src/canon.rs:20-40 | equal encodings mean equal heads |
| RefHeads.Reencoding | code/crates/safehub-types/src/canon.rs:43-95 | re-encoding a decoded string keeps its length and every byte but the two flags, and is exact if and only if both flag bytes are 0 or 1 |
| RefHeads.FlagTwoIsRewritten | code/crates/safehub-types/src/canon.rs:43-95 | a concrete head whose flag byte 2 decodes and re-encodes to other bytes |
| RefHeads.EncodedFront | code/crates/safehub-types/src/canon.rs:20-27 | where the repository, number, encrypted refs, bundle root, key and predecessor hash stand in the wire form, each number big-endian and each opaque field after its length |
| RefHeads.EncodedBack | code/crates/safehub-types/src/canon.rs:27-29 | and the predecessor hash, epoch and tag |
| RefHeads.EncodedSigs | code/crates/safehub-types/src/canon.rs:30-40 | and the flag bytes, the signature and the optional co-signature, at which the string ends |
| Bytes.BigEndianByte | code/crates/safehub-types/src/canon.rs:22-30 | byte i of a big-endian number is its base-256 digit counted from the top |
| Bytes.LittleEndianByte | code/crates/safehub-crypto/src/mldsa.rs:101-112 | byte i of a little-endian number is its base-256 digit counted from the bottom |
| PythonDecoder.GetOpaque | code/tools/refhead_verify.py:18-25 | the offset reader accepts a field exactly where the slice-consuming one does and lands on the same remainder |
| PythonDecoder.DecodeRefHead | code/tools/refhead_verify.py:28-69 | the offset decoder accepts exactly the strings the Rust decoder accepts, with the same fields, and hashes the raw bytes |
| HeadFormats.TlsIsLossless | code/crates/safehub-types/src/refs.rs:36-49 | the TLS codec meets the one hypothesis of the store and protocol results |
| HeadFormats.CollisionsAreShaCollisions | code/crates/safehub-types/src/refs.rs:36-44 | two different heads of a finite set with one hash give two different encodings with one SHA-512 value |
| HeadStore.LocalStore.Tip | code/crates/safehub-storage/src/local.rs:147-160 | reads the tip file: absent, a head, or corrupt |
| HeadStore.LocalStore.CasAppend | code/crates/safehub-storage/src/local.rs:162-200 | whole new file state and reply of an append, for each point where it can be cut short: conflict, wrong number, failed log write, failed tip write, lost reply |
| HeadStore.LocalStore.Since | code/crates/safehub-storage/src/local.rs:202-226 | for whatever order the directory lists the files in, the sorted decoded heads above the cursor; an error exactly when some such file does not decode |
| CrashSafety.AppendKeepsLog | code/crates/safehub-storage/src/local.rs:71-93 | from any represented state and with any fault, the files again represent the same chain or the chain plus the new head; refused appends change nothing; a conflict is reported exactly when the named predecessor is not the tip |
| CrashSafety.AppendedIff | code/crates/safehub-storage/src/local.rs:162-200 | from any files at all, corrupt ones included: a head is accepted exactly when it names and numbers the successor of the tip and nothing fails, and the log and tip files change exactly then and up to the failing write |
| CrashSafety.CommittedIsFinal | code/crates/safehub-storage/src/local.rs:162-200 | the log entry of a head at or below the tip is never rewritten, whatever is appended and wherever it fails |
| CrashSafety.UncommittedIsReplaceable | code/crates/safehub-storage/src/local.rs:184-199 | a head left above the tip by a crash is listed, and any other eligible head then replaces its file |
| CrashSafety.CrashedAppendIsReplaced | code/crates/safehub-storage/src/local.rs:184-199 | a concrete run from an empty store: an append cut short leaves a listed head that the next append replaces |
| CrashSafety.OneSuccessorPerHead | code/crates/safehub-storage/src/local.rs:165-199 | no two heads of a chain name one predecessor, unless heads collide or one hashes to the zero marker |
| CrashSafety.ListingIsServedSuffix | code/crates/safehub-storage/src/local.rs:202-226 | the listing of a represented log is its heads above the cursor in sequence order |
| Reconcile.ReconcileRefs | code/crates/safehub-client/src/pushfetch.rs:437-486 | the loops over intended and deleted refs compute the three-way merge, and the race check decides the error |
| Reconcile.MergesPerRef | code/crates/safehub-client/src/pushfetch.rs:426-486 | the map merge succeeds exactly when each single ref merges, and then each ref has its single-ref value: untouched refs follow the remote, writes go through when the remote is absent, at baseline, already equal or overruled, deletions only when overruled |
| Reconcile.RacedIff | code/crates/safehub-client/src/pushfetch.rs:437-486 | refused if and only if unforced and some ref set anew by the caller has moved on the remote to a third value |
| Reconcile.MergedValues | code/crates/safehub-client/src/pushfetch.rs:437-486 | ref by ref, a merge holds the caller value where it was set anew, nothing where it was deleted by force, and the remote value elsewhere |
| Reconcile.MergeIdempotent | code/crates/safehub-client/src/pushfetch.rs:437-486 | reconciling again against the result changes nothing |
| Reconcile.MergesCommute | code/crates/safehub-client/src/pushfetch.rs:437-486 | pushes of which no ref can be changed by both give the same map in either order; a deletion that an unforced push asks for changes nothing |
| Reconcile.MergeUnraced | code/crates/safehub-client/src/pushfetch.rs:437-486 | against an unmoved remote a forced push publishes the caller map, and an unforced one does exactly when the caller asked for no deletion |
| PushProtocol.RunKeeps | code/crates/safehub-client/src/pushfetch.rs:588-686 | every reachable state of any number of clients, each with its own key material, and one crashing store keeps the invariant: files represent the commits, each commit is a merge by a member that could open its predecessor, each client remembers a true prefix |
| PushProtocol.SendOutcome | code/crates/safehub-client/src/pushfetch.rs:651-684 | a send commits only if nothing was committed since its client planned, and is then accepted unless a fault intervenes |
| PushGuarantees.CommitsAreMerges | code/crates/safehub-client/src/pushfetch.rs:601-633 | in every interleaving each accepted head carries exactly the merge of its own push into the ref map of its predecessor, and its baseline was the map some commits back |
| PushGuarantees.OrdinaryPushIsSafe | code/crates/safehub-client/src/pushfetch.rs:426-436 | an unforced push leaves refs it did not change, drops none, and changes a ref only from the value it had read, from absence, or not at all |
| PushGuarantees.NoLostUpdate | code/crates/safehub-client/src/pushfetch.rs:426-436 | when a published ref value disappears, the push that first replaced it was forced or had read that very value |
| PushGuarantees.OrdinaryRunsNeverDrop | code/crates/safehub-client/src/pushfetch.rs:426-486 | between two points of a run without forced pushes the set of refs only grows |
| PushGuarantees.RetriesArePaidFor | code/crates/safehub-client/src/pushfetch.rs:608-684 | a client that lost n races has seen at least n other heads committed since its baseline, and n never exceeds the retry limit |
| PushGuarantees.ConflictMeansProgress | code/crates/safehub-client/src/pushfetch.rs:651-684 | a fault-free send is accepted exactly when nothing overtook it; otherwise another head was committed |
| PushProgress.PushSucceeds | code/crates/safehub-client/src/pushfetch.rs:608-684 | progress: a push begun in any reachable state that loses at most max_retries races and is then undisturbed once is acknowledged and is the last commit, if each tip opens and each merge succeeds |
| PushProgress.PushGivesUp | code/crates/safehub-client/src/pushfetch.rs:664-681 | the bound is exact: after one more lost race the push has failed |
| PushProgress.UnplannableFails | code/crates/safehub-client/src/pushfetch.rs:611-623 | a tip that does not open or a raced merge ends the push and changes nothing else |
| PushProgress.FaultedSendFails | code/crates/safehub-client/src/pushfetch.rs:651-684 | a fault while the head is appended ends the push unacknowledged, retries left or not, and commits its head exactly when only the reply was lost |
| PushGuarantees.EpochsNeverFall | code/crates/safehub-client/src/pushfetch.rs:612-633 | along the committed log of any run epochs never fall, because a pusher must open the tip with material that holds no later epoch |
| PushGuarantees.RunsOnlyAppend | code/crates/safehub-storage/src/local.rs:162-200 | along any run the committed log and the acknowledged set only grow |
| PushGuarantees.AcknowledgedIsDurable | code/crates/safehub-storage/src/local.rs:184-199 | an acknowledged head keeps its file and its place in every continuation |
| PushGuarantees.OneAcceptedSuccessor | code/crates/safehub-storage/src/local.rs:165-181 | over a whole run at most one accepted head names a given predecessor |
| Paging.HeadsSinceRoute | code/crates/safehub-server/src/routes.rs:551-581 | on a represented log the route returns the heads above the cursor, cut to a page size clamped into 1 to 1000; it fails exactly when a log file above the cursor does not decode |
| Paging.PageIs | code/crates/safehub-server/src/routes.rs:551-581 | a page is the heads just above the cursor, as many as there are up to the limit, which counts as 1 below and 1000 above its range |
| Paging.HeadsSince | code/crates/safehub-client/src/http.rs:299-324 | terminates against any server; against one whose log only grows it returns exactly the heads above the cursor in the log of the last request, and against one whose last head may be replaced it ends where the log of one of the last two requests ended |
| PagingGuarantees.ListingNeverShrinks | code/crates/safehub-storage/src/local.rs:162-226 | along any run of pushes and crashes the listing never gets shorter |
| PagingGuarantees.InterleavedLengthens | code/crates/safehub-storage/src/local.rs:162-226 | requests interleaved with any run see logs of the kind that the client loop is proved for |
| PagingGuarantees.ListingIsSuffixOrBroken | code/crates/safehub-client/src/http.rs:299-324 | a listing interleaved with any run is the true suffix of the log that one of its last two requests saw, or its chain check fails from every anchor, unless heads collide |
| FetchVerify.VerifyHeadChain | code/crates/safehub-client/src/policy.rs:330-352 | accepts a run if and only if each head names its predecessor or the anchor and numbers are consecutive after the first |
| FetchVerify.VerifyEpochTag | code/crates/safehub-client/src/policy.rs:277-326 | the accumulating comparison accepts exactly the recomputed tag |
| FetchVerify.VerifyFetchedHeads | code/crates/safehub-client/src/pushfetch.rs:886-958 | accepts exactly the chains that descend from the anchor with every tag and leaf signature acceptable to the member |
| AcceptedRuns.AcceptedIff | code/crates/safehub-client/src/pushfetch.rs:886-958 | acceptance one condition at a time: links and numbers from the anchor, each recomputable tag equal to the cut MAC of epoch, root and number, no later epoch without a key, and with leaf keys a signature of each head under one of them |
| AcceptedRuns.OneTagPerHead | code/crates/safehub-client/src/policy.rs:273-288 | two accepted heads of a held epoch with one tag and different numbers or roots exhibit two MAC inputs whose outputs begin with the same 32 bytes |
| AcceptedRuns.ReplacedTagIsRefused | code/crates/safehub-client/src/pushfetch.rs:901-908 | an accepted run with other bytes for a recomputable tag is refused from every anchor |
| AcceptedRuns.LeafMessageLayout | code/crates/safehub-crypto/src/mldsa.rs:90-112 | where each field stands in the signed string of a head |
| AcceptedRuns.SignedFieldsArePinned | code/crates/safehub-crypto/src/mldsa.rs:90-112 | at given lengths of the encrypted refs and the wrapped key the signed string determines every field but the signatures |
| FetchVerify.FetchHeadsSince | code/crates/safehub-client/src/pushfetch.rs:806-869 | accepts if and only if the retained heads are accepted and reach the advertised tip, and returns exactly those heads |
| AcceptedRuns.FetchedIff | code/crates/safehub-client/src/pushfetch.rs:806-869 | a fetch succeeds exactly when the heads at or above the grant are accepted, unanchored if any was dropped, and the advertised tip is not above the last of them or, without any, the cursor |
| AcceptedRuns.KeptPositions | code/crates/safehub-client/src/pushfetch.rs:823-830 | the heads kept are those at or above the grant, each once and in order |
| FetchVerify.RunPinnedByTip | code/crates/safehub-client/src/policy.rs:330-352 | two runs accepted from genesis with one final hash are the same run, unless heads collide or hash to the zero marker |
| FetchVerify.TwoFetchesAreOne | code/crates/safehub-client/src/pushfetch.rs:886-899 | accepting in two fetches equals accepting the concatenation exactly when the second also continues the numbering |
| FetchVerify.NumberingJumpAccepted | code/crates/safehub-client/src/policy.rs:330-352 | heads numbered 1 and 5 are accepted in two fetches and refused in one |
| ReaderGuarantees.HonestFetch | code/crates/safehub-client/src/pushfetch.rs:806-869 | on an honest log a fetch returns the listed heads from the first one in the grant on, and succeeds if and only if the grant reaches a listed head or the tip is not ahead |
| ReaderGuarantees.NewMemberIsTurnedAway | code/crates/safehub-client/src/pushfetch.rs:846-863 | a member that has just joined forward-only is told that an honest log of older epochs is withheld |
| ReaderGuarantees.IncrementFetchedIff | code/crates/safehub-client/src/pushfetch.rs:801-869 | the increment between any two points of an honest log, the clone included, is accepted exactly when it is empty or the grant reaches its last head |
| ReaderGuarantees.IncrementsAreClone | code/crates/safehub-client/src/pushfetch.rs:801-869 | for every way of cutting the log, what the increments return put together is what one clone returns |
| ReaderGuarantees.FullHistoryIncrements | code/crates/safehub-client/src/pushfetch.rs:801-869 | for a member with full history every increment of every cutting is accepted and together they are the log |
| ReaderGuarantees.IncrementAcceptedIff | code/crates/safehub-client/src/pushfetch.rs:806-869 | the next fetch of a reader whose last head is given succeeds exactly when it reaches the tip and nothing is listed above, or its grant starts above the next head, or the log still has that head |
| ReaderGuarantees.ReplacementIsSilent | code/crates/safehub-client/src/pushfetch.rs:806-869 | right after its last head was replaced, a reader is served nothing new and accepts that |
| ReaderGuarantees.ReplacedReaderIsStuck | code/crates/safehub-client/src/pushfetch.rs:806-869 | once the log has grown past the replacement, a full-history reader has every fetch from its anchor refused |
| ForkCompare.ChainInternallyValid | code/crates/safehub-client/src/fork.rs:298-311 | accepts exactly the contiguous, linked chains with non-falling epochs |
| ForkCompare.CompareCheckpoints | code/crates/safehub-client/src/fork.rs:195-288 | refuses for the first failed check in order, otherwise runs all stages |
| ForkTheory.ProjectionConvex | code/crates/safehub-client/src/fork.rs:245-264 | a valid chain has no hole inside a window, so the missing-entry branch never decides |
| ForkTheory.NoCommitmentClash | code/crates/safehub-client/src/fork.rs:123-145 | views that agree on every shared number never clash on an epoch commitment, whatever the digest |
| ForkTheory.StagesRefineSpec | code/crates/safehub-client/src/fork.rs:195-288 | on valid chains the staged comparison gives exactly the short specification: witness clash, nothing shared, first shared difference, else who is ahead |
| ForkVerdicts.ComparedIff | code/crates/safehub-client/src/fork.rs:195-209 | checkpoints are compared if and only if repositories agree, each binding is that of its view, both chains are unbroken and no entry is below its window; when each of the first two errors is given |
| ForkVerdicts.WitnessForkIff | code/crates/safehub-client/src/fork.rs:213-229 | an epoch-witness fork at e is reported if and only if e is the least epoch witnessed with different bytes, at the number of the first entry of e in the first chain if it has one |
| ForkVerdicts.HeadForkIff | code/crates/safehub-client/src/fork.rs:231-264 | a head fork at s is reported if and only if no witnesses differ, both may speak for different heads under s, and agree below s wherever both hold a head |
| ForkVerdicts.DisjointIff | code/crates/safehub-client/src/fork.rs:231-243 | the windows are called disjoint if and only if no witnesses differ and no number is visible on both sides; no fork by epoch commitment is ever reported |
| ForkVerdicts.AgreementIff | code/crates/safehub-client/src/fork.rs:283-287 | one side is called ahead, or the views consistent, if and only if all that both may speak for agrees and that side, or neither, holds a higher visible number |
| ForkGuarantees.ExportIsAccepted | code/crates/safehub-client/src/fork.rs:73-93 | checkpoints exported from a linked run under any window pass every refusal check |
| ForkGuarantees.HonestViewsAgree | code/crates/safehub-client/src/fork.rs:195-288 | two prefixes of one log under any windows never err and never fork: disjoint exactly when the shorter does not reach the window, else consistent exactly when equal, else the longer side is named |
| ForkGuarantees.ForksNeverHeal | code/crates/safehub-client/src/fork.rs:245-264 | the reported number is the split point: shared entries agree below it and differ from it on |
| ForkGuarantees.TipAgreementSuffices | code/crates/safehub-client/src/fork.rs:245-264 | agreement at the highest shared number implies agreement everywhere |
| ForkGuarantees.CompareIsSymmetric | code/crates/safehub-client/src/fork.rs:195-288 | swapping the arguments only swaps the sides, except for the number attached to a witness clash |
| Merkle.MerkleRoot | code/crates/safehub-client/src/consolidate.rs:92-110 | the level-by-level loop computes the recursive root |
| Merkle.RootOfLevel | code/crates/safehub-client/src/consolidate.rs:92-110 | the root of a level is that of its parents, left child first, an odd last node hashed with itself |
| Merkle.MerklePath | code/crates/safehub-client/src/consolidate.rs:113-137 | the loop yields the recursive path of an index, and none beyond the leaves |
| Merkle.MerkleRootFromPath | code/crates/safehub-client/src/consolidate.rs:140-150 | the loop computes the climb along the steps |
| Merkle.PathsReachRoot | code/crates/safehub-client/src/consolidate.rs:92-150 | each leaf of each non-empty list climbs to the root along its own path, odd levels included |
| Merkle.PathStartsInTree | code/crates/safehub-client/src/consolidate.rs:140-150 | a path of any length and directions that reaches the root starts at a leaf, or at an inner node, or passes through a leaf, when no two hashed pairs collide |
| Consolidation.ConsolidationMessage | code/crates/safehub-client/src/consolidate.rs:267-295 | appending field after field produces the transcript that the injectivity result is about |
| AcceptedReceipts.TranscriptLayout | code/crates/safehub-client/src/consolidate.rs:267-295 | the signed transcript is a fixed part, one row of 88 bytes for each epoch in ascending order, and the tail |
| AcceptedReceipts.FixedPartLayout | code/crates/safehub-client/src/consolidate.rs:268-273 | where repository, epoch, span and root stand in it |
| AcceptedReceipts.TailLayout | code/crates/safehub-client/src/consolidate.rs:284-293 | and the checkpoint, or a zero byte |
| AcceptedReceipts.LeafInputLayout | code/crates/safehub-client/src/consolidate.rs:34-43 | what the leaf of a head hashes, byte for byte |
| AcceptedReceipts.NodeInputLayout | code/crates/safehub-client/src/consolidate.rs:46-54 | what an inner node hashes |
| AcceptedReceipts.RefsInputLayout | code/crates/safehub-client/src/consolidate.rs:186-196 | what the digest of a ref map hashes |
| AcceptedReceipts.SeqsAndHashesLayout | code/crates/safehub-client/src/consolidate.rs:255-258 | the digest of an epoch hashes 72 bytes for each head, its number and its hash |
| Consolidation.PlanConsolidation | code/crates/safehub-client/src/consolidate.rs:298-331 | plans exactly the non-empty consecutive spans and names the error of the others |
| AcceptedReceipts.PlanFields | code/crates/safehub-client/src/consolidate.rs:298-331 | a plan speaks for its repository and epoch, from its first to its last number, and for the epochs of its heads only |
| AcceptedReceipts.PlannedCommitment | code/crates/safehub-client/src/consolidate.rs:242-264 | the commitment of an epoch spans the numbers of its heads, both ends attained, and hashes all of them |
| Consolidation.PlanCompaction | code/crates/safehub-client/src/consolidate.rs:340-356 | adds to that plan the checkpoint of the last head |
| Consolidation.ProofFor | code/crates/safehub-client/src/consolidate.rs:230-239 | hands out the path of a number exactly inside the span and the leaves |
| Consolidation.VerifyAdminAuthorization | code/crates/safehub-client/src/consolidate.rs:565-603 | accepts a bundle with at least m signatures valid under any key, or a plain signature valid under some key |
| Consolidation.VerifyConsolidationWindow | code/crates/safehub-client/src/consolidate.rs:459-563 | accepts if and only if authorized, meeting the span, every held head included, every held epoch covered, checkpoint fitting |
| AcceptedReceipts.AcceptedIff | code/crates/safehub-client/src/consolidate.rs:459-563 | for rising windows, acceptance one condition at a time: signed, met by the window, each held head proved at its own place, each held epoch listed with a span around the held numbers and, where both ends are held, the digest of the held heads, and a checkpoint inside the span that is the held head |
| AcceptedReceipts.AcceptedEpochsAreHeld | code/crates/safehub-client/src/consolidate.rs:513-542 | commitment soundness: each held epoch is listed around the held numbers; where both ends of its span are held and its digest is that of heads g, the held heads are g, unless the two strings or two heads collide |
| AcceptedReceipts.ChangedEpochIsRefused | code/crates/safehub-client/src/consolidate.rs:513-534 | a receipt planned over other heads of an epoch than the reader holds is refused, given both ends and no collision |
| Consolidation.VerifyCheckpointAnchor | code/crates/safehub-client/src/consolidate.rs:395-452 | accepts if and only if authorized and the anchor head, its refs and its number are the bound ones inside the span |
| AcceptedReceipts.AnchorAcceptedIff | code/crates/safehub-client/src/consolidate.rs:395-452 | for every receipt, each condition an anchor head and refs have to meet |
| ConsolidationGuarantees.MessageDeterminesReceipt | code/crates/safehub-client/src/consolidate.rs:267-295 | equal transcripts mean equal receipts up to the signature, although the epoch table has no count |
| ConsolidationGuarantees.AcceptedHeadsAreCommitted | code/crates/safehub-client/src/consolidate.rs:459-511 | window soundness: under the root of a span, each accepted in-span head is the head of that number in the span, for paths of any shape, unless hashed strings or heads collide |
| ConsolidationGuarantees.HonestReceiptAccepted | code/crates/safehub-client/src/consolidate.rs:298-356 | completeness: a signed plan, compacted or not, is accepted from every contiguous window that meets its span, even with interleaved epochs |
| ConsolidationGuarantees.SliceIsCovered | code/crates/safehub-client/src/consolidate.rs:242-264 | the commitments of a run cover those of every slice of it and agree where the spans coincide |
| ConsolidationGuarantees.QuorumAuthorizes | code/crates/safehub-client/src/consolidate.rs:370-382 | a bundle whose signatures all verify authorizes, whoever made them |
| QuorumGuarantees.AuthorizedMeansSignedIff | code/crates/safehub-client/src/consolidate.rs:565-603 | an accepted receipt authorization shows a valid signature under every signature scheme if and only if its threshold is not zero |
| QuorumGuarantees.UnsignedReceiptAccepted | code/crates/safehub-client/src/consolidate.rs:475-478 | the failing input: a planned receipt with the six-byte bundle of threshold zero is accepted although no signature verifies |
| QuorumGuarantees.AuthorizedIff | code/crates/safehub-client/src/consolidate.rs:565-603 | a receipt authorization that is no bundle is accepted exactly when some listed key verifies it, and a bundle exactly when at least its threshold of signatures are verified by listed keys |
| QuorumGuarantees.CosignedIff | code/crates/safehub-client/src/policy.rs:501-541 | a head co-signature that is no bundle is accepted exactly when the first key verifies it, and a bundle exactly when every signature has a key and at least the threshold are verified at their own position |
| QuorumGuarantees.BundleLayout | code/crates/safehub-client/src/policy.rs:457-472 | the wire form of a bundle: four fixed bytes, threshold, count, and each signature after its length |
| QuorumGuarantees.ValidSignaturesCountSigners | code/crates/safehub-client/src/consolidate.rs:584-603 | the count compared with the threshold is at most the number of signers when no key verifies two signatures |
| QuorumGuarantees.ThresholdCountsSignersIff | code/crates/safehub-client/src/consolidate.rs:584-603 | where one key alone verifies some signature, every accepted bundle of threshold m shows m signers if and only if m <= 1 |
| QuorumGuarantees.CosignedMeansSignedIff | code/crates/safehub-client/src/policy.rs:501-541 | an accepted head co-signature shows a valid signature under every scheme if and only if its threshold is not zero or it brings more signatures than there are keys |
| QuorumGuarantees.EmptyBundleCosigns | code/crates/safehub-client/src/policy.rs:501-541 | the same six bytes co-sign any message, with or without keys |
| QuorumGuarantees.CosignersCountIff | code/crates/safehub-client/src/policy.rs:501-541 | accepted head bundles of every threshold show that many signers if and only if no addressable key is listed twice |
| ConsolidationGuarantees.AnchorPinned | code/crates/safehub-client/src/consolidate.rs:395-452 | a compaction receipt is accepted with its own anchor and refs and with nothing else, unless heads or hashed refs collide |
| Aead.ExpandPad | code/crates/safehub-crypto/src/aead.rs:228-257 | the block loop fills byte i with byte i mod 64 of hash block i div 64 |
| SealGuarantees.PadIsBlocks | code/crates/safehub-crypto/src/aead.rs:228-257 | the pad is the beginning of the hashes of the pad key with the block numbers 0, 1, 2 and so on, one after another |
| SealGuarantees.EqualBlocksCollide | code/crates/safehub-crypto/src/aead.rs:243-256 | blocks of different numbers hash different strings, so two equal blocks exhibit a SHA-512 collision |
| SealGuarantees.OnePadKeyCollides | code/crates/safehub-crypto/src/aead.rs:234-240 | one pad key for a different nonce, associated data or length exhibits two MAC inputs with one output |
| Aead.CtEq | code/crates/safehub-crypto/src/aead.rs:269-278 | the accumulating comparison is equality |
| Aead.SealWithNonce | code/crates/safehub-crypto/src/aead.rs:104-129 | in-place masking and tagging compute the sealing function |
| SealGuarantees.SealedFrame | code/crates/safehub-crypto/src/aead.rs:104-129 | a sealed string begins with its nonce and ends with the cut MAC of associated data and masked part under the second half of the expanded key |
| SealGuarantees.SealedBytes | code/crates/safehub-crypto/src/aead.rs:104-129 | each masked byte is the commitment-block or plaintext byte with its pad byte, the pad keyed by the first half |
| SealGuarantees.CommitBlockText | code/crates/safehub-crypto/src/aead.rs:44-55 | the commitment block is its label, zeros and the version |
| Bytes.ByteDigits | code/crates/safehub-crypto/src/aead.rs:269-278 | exclusive and inclusive or of bytes, binary digit by binary digit |
| Aead.OpenSealed | code/crates/safehub-crypto/src/aead.rs:132-158 | in-place opening computes the opening function, with its error cases |
| Aead.SealDeterministic | code/crates/safehub-crypto/src/aead.rs:91-102 | seals under the counter nonce below 2^32 and refuses from there on |
| Aead.NoncesDiffer | code/crates/safehub-crypto/src/aead.rs:196-204 | different counters give different nonces |
| Aead.OpenIffSealed | code/crates/safehub-crypto/src/aead.rs:104-158 | a string opens to a plaintext if and only if it is the sealing of that plaintext under its own first twelve bytes, for arbitrary hash functions |
| Aead.OtherAadIsTagCollision | code/crates/safehub-crypto/src/aead.rs:259-267 | opening under other associated data exhibits two different MAC inputs with one tag |
| Chunker.Reader.Read | code/crates/safehub-client/src/pushfetch.rs:156-162 | what a reader may do: short, interrupted or failing reads, zero only at the end |
| Chunker.FillBuffer | code/crates/safehub-client/src/pushfetch.rs:155-163 | the inner loop fills the buffer or reaches the end, whatever the reads do short of failing |
| Chunker.BundleChunksSeek | code/crates/safehub-client/src/pushfetch.rs:134-183 | the chunks are those of the data for every behaviour of the reader; only a failing read makes it fail |
| SealGuarantees.ChunkFields | code/crates/safehub-client/src/pushfetch.rs:147-182 | the fields of chunk i: place, count, push, address, own nonce, and that it opens to the i-th 4 MiB of the data |
| Chunker.ChunksCarryAllIff | code/crates/safehub-client/src/pushfetch.rs:147-151 | the chunks are consecutive pieces, full but for the last and empty only for an empty input, and carry the whole input in order if and only if their number fits 32 bits |
| Chunker.LargestBundleIsLost | code/crates/safehub-client/src/pushfetch.rs:147-151 | at 2^32 full chunks the count wraps to zero and nothing is sealed |
| SealGuarantees.ChunkAadText | code/crates/safehub-client/src/pushfetch.rs:164-167 | the associated data of a chunk as text |
| Text.HexDigits | code/crates/safehub-client/src/pushfetch.rs:164-167 | and its hexadecimal part, two digits a byte |
| Chunker.ChunkAadInjective | code/crates/safehub-client/src/pushfetch.rs:164-167 | within a push, associated data determine index and count |
| Chunker.MovedChunkIsTagCollision | code/crates/safehub-client/src/pushfetch.rs:116-119 | a chunk that opens at another index or count exhibits a tag collision |
| BlobStore.Blobs.PutBlob | code/crates/safehub-storage/src/local.rs:106-121 | the new files, metadata and reply for each point where the put can be cut short, a torn file included; an existing file is kept whatever it holds |
| BlobStore.Blobs.Upload | code/crates/safehub-client/src/pushfetch.rs:634-650 | uploading in waves, for every wave size and every pattern of failures, leaves what one-by-one puts of a prefix would; success means that every chunk was put whole |
| BlobStore.MetaOfChunk | code/crates/safehub-client/src/pushfetch.rs:171-180 | after the puts of an upload, a chunk whose put did not fail is described by its address and size and by its own index, count and push |
| BlobStore.OtherMetasStay | code/crates/safehub-storage/src/local.rs:106-121 | and every other blob keeps its description |
| BlobStore.UploadStoresIff | code/crates/safehub-storage/src/local.rs:106-121 | into any store, a complete upload leaves a chunk under its address if and only if nothing else stood there before |
| BlobStore.TornWriteIsKept | code/crates/safehub-storage/src/local.rs:115-118 | a file torn by a cut-short write is never repaired by later uploads |
| BlobStore.UploadStoresAll | code/crates/safehub-storage/src/local.rs:106-121 | into a store with honest addresses every upload puts every chunk, unless two involved strings collide |
| BlobStore.UploadIsIdempotent | code/crates/safehub-client/src/pushfetch.rs:634-636 | uploading what is present changes nothing, torn files included |
| Bundles.BuildPushPlan | code/crates/safehub-client/src/pushfetch.rs:227-323 | chunks, unsigned head and ref map of a plan, with wrapped key and refs under counters 0 and 1 |
| SealGuarantees.PlannedFields | code/crates/safehub-client/src/pushfetch.rs:227-323 | the fields of a planned head: place, root of all chunk addresses in order, tag, and the two sealed fields with the nonces of counters 0 and 1 |
| SealGuarantees.PlannedSealsOpen | code/crates/safehub-client/src/pushfetch.rs:227-323 | the two sealed fields open under their own labels with the key of the number of the head, to the data key and the ref map |
| SealGuarantees.HeadKeysAreApart | code/crates/safehub-crypto/src/aead.rs:165-173 | heads of different numbers expand their sealing keys from different strings, so one key for both exhibits two strings with one output |
| Bundles.FetchHeadBundle | code/crates/safehub-client/src/pushfetch.rs:961-987 | the loop over chunk ids computes the fetch function, with each error case |
| Bundles.FetchInvertsPlan | code/crates/safehub-client/src/pushfetch.rs:730-787 | a planned head whose chunks are stored gives back the ref map and exactly the covered part of the bundle |
| Bundles.RoundTripIff | code/crates/safehub-client/src/pushfetch.rs:961-987 | the whole bundle comes back if and only if the true number of chunks is below 2^32 |
| Bundles.PushThenFetch | code/crates/safehub-client/src/pushfetch.rs:634-650 | the same through a store that holds anything, except other content under a chunk address, for every bundle including the empty one |
| SealGuarantees.PublishedIsFetched | code/crates/safehub-client/src/pushfetch.rs:227-323 | end to end: the refs, symbolic head, push id and bundle that a caller publishes are what a fetch of its head returns |
| Bundles.TornChunkFailsFetch | code/crates/safehub-client/src/pushfetch.rs:961-987 | one chunk file torn within its overhead makes the head unreadable |
| Bundles.HistorySurvivesRotation | code/crates/safehub-client/src/pushfetch.rs:745-764 | a bundle sealed in an earlier epoch is fetched with later material after any rotations and invitations in the first segment |
| Pushes.PlannedHeadIsPlan | code/crates/safehub-client/src/pushfetch.rs:614-633 | a head planned on the tip, signed or not, is one that the protocol may send, and it opens to the merged refs |
| Pushes.DecryptedRefsAreMerges | code/crates/safehub-client/src/pushfetch.rs:588-686 | with the real codec, hash and decryption and each client holding its own part of the epoch keys, in every interleaving the refs decrypted from an accepted head are the merge of its push into those decrypted from its predecessor |
| Pushes.CommittedViewsAgree | code/crates/safehub-client/src/fork.rs:195-288 | checkpoints of any two points of the log committed by any run, under any windows, are never refused and never forked |
| Dkr.IntervalDkr.Advance | code/crates/safehub-crypto/src/dkr.rs:148-165 | whole new state and reply: refusal, extension, or a new segment at capacity |
| Dkr.SegmentCounts | code/crates/safehub-crypto/src/dkr.rs:128-190 | for every operation: refusal leaves the object, an advance within the capacity extends the segment and its count, and anything else begins a segment at the drawn seed |
| Dkr.IntervalDkr.ReinitSegment | code/crates/safehub-crypto/src/dkr.rs:128-135 | whole new state of a new segment |
| Dkr.IntervalDkr.BackwardBlock | code/crates/safehub-crypto/src/dkr.rs:178-190 | a new segment and its one-epoch interval |
| Dkr.IntervalDkr.ForwardBlock | code/crates/safehub-crypto/src/dkr.rs:167-176 | a new segment and no interval |
| Dkr.WindowsOfRun | code/crates/safehub-crypto/src/dkr.rs:148-190 | over any run whose blocks name later epochs, intervals span at most 2^20 epochs, share start and token within a generation and are disjoint across generations |
| Dkr.OneKeyPerEpoch | code/crates/safehub-crypto/src/dkr.rs:192-210 | all issued intervals that contain an epoch derive one key for it |
| Dkr.BlockOverlapsIff | code/crates/safehub-crypto/src/dkr.rs:178-190 | the intervals before and after a block overlap exactly when the block names an epoch the segment covers |
| Dkr.SegmentsAreAligned | code/crates/safehub-crypto/src/dkr.rs:148-165 | advancing epoch by epoch, segments start at the multiples of 2^20 |
| Dkr.CapKeepsKeysUpTo | code/crates/safehub-crypto/src/dkr.rs:214-220 | capping keeps exactly the keys up to the cap |
| Dkr.InfoInjective | code/crates/safehub-crypto/src/dkr.rs:206-209 | different epochs are derived under different labels |
| Dkr.DerivedIff | code/crates/safehub-crypto/src/dkr.rs:192-210 | a key is derived exactly inside the interval, from its token and a label ending in the decimal digits of the epoch |
| Text.DecimalReads | code/crates/safehub-crypto/src/dkr.rs:206-209 | those digits read back as the epoch |
| EpochKeys.Inherit | code/crates/safehub-client/src/mls_local.rs:62-74 | the inserts into the two prior-key maps compute the inherited material |
| EpochKeys.InheritKeeps | code/crates/safehub-client/src/mls_local.rs:62-74 | for every two materials: what was retained stays, the previous exports join it unless both are of one epoch, and the new exports are untouched |
| EpochKeys.EpochKeyAt | code/crates/safehub-client/src/mls_local.rs:133-179 | the derivation through a key-regression object computes the key function, with each error case |
| EpochKeys.KeyOutcome | code/crates/safehub-client/src/mls_local.rs:133-179 | for every material, exactly when each error is given and which secret a key comes from; past the first segment a material without full history derives from a new draw where a full one is refused |
| EpochKeys.InviteMember | code/crates/safehub-client/src/mls_local.rs:398-472 | new admin material and the grant, full or forward-only |
| EpochKeys.RotateGroup | code/crates/safehub-client/src/mls_local.rs:588-612 | new material of a rotation or bootstrap |
| EpochKeys.AcceptWelcome | code/crates/safehub-client/src/mls_local.rs:540-554 | material of a joiner |
| EpochKeys.EveryMacRetained | code/crates/safehub-client/src/mls_local.rs:125-130 | after any run the MAC key of every epoch passed through is found |
| EpochKeys.NoOtherMac | code/crates/safehub-client/src/mls_local.rs:120-130 | and of no other epoch |
| EpochKeys.ReadableIff | code/crates/safehub-client/src/mls_local.rs:133-190 | a superseded epoch, of any number, is read with its own key if and only if the group is in its first segment and token and transport seed derive one key |
| EpochKeys.CurrentReadableIff | code/crates/safehub-client/src/mls_local.rs:133-190 | for the current epoch two derivations by one device agree if and only if the epoch is below 2^20 or their fresh draws derive one key |
| EpochKeys.NewSegmentOrphansCurrentEpoch | code/crates/safehub-client/src/mls_local.rs:167-178 | a concrete group at epoch 2^20 that derives two keys in two calls |
| EpochKeys.RotationOrphansNothing | code/crates/safehub-client/src/mls_local.rs:588-612 | so every superseded epoch not begun by a forward-only invitation stays readable below epoch 2^20 |
| EpochKeys.ForwardOnlyInviteThenRotateOrphans | code/crates/safehub-client/src/mls_local.rs:403-425 | a concrete run where a forward-only invitation and a rotation make an epoch unreadable |
| EpochKeys.FullJoinerAgrees | code/crates/safehub-client/src/mls_local.rs:446-472 | a full-grant joiner holds exactly the admin material |
| EpochKeys.ForwardOnlyJoinerReadsNothingEarlier | code/crates/safehub-client/src/mls_local.rs:133-139 | a forward-only joiner gets an error for every earlier epoch |
| EpochKeys.ForwardOnlyTokenIsDrawn | code/crates/safehub-client/src/mls_local.rs:401-414 | the token it is given is the one drawn for its invitation |
| EpochKeys.ForwardOnlyJoinerAgrees | code/crates/safehub-client/src/mls_local.rs:540-554 | and the admin key at its join epoch |
| FastForward.ClassifyFf | code/crates/safehub-client/src/policy.rs:128-171 | in any visiting order: non-fast-forward if a ref is deleted or some ref is bad, else unverifiable if some ref is unknown, else fast-forward |
| FastForward.VerifyForcePushPolicyScoped | code/crates/safehub-client/src/policy.rs:400-451 | passes a fast-forward, and otherwise exactly honestly labelled updates with a valid co-signature over the push statement |
| FastForward.CosigBindsPosition | code/crates/safehub-client/src/policy.rs:208-244 | co-signed messages are equal exactly for one position, one ref digest and rosters equal up to order |
| BranchProtection.FastForwardIsSound | code/crates/safehub-client/src/policy.rs:25-65 | a fast-forward verdict from any part of the graph holds in the whole graph |
| BranchProtection.ClassifiedIff | code/crates/safehub-client/src/policy.rs:128-171 | the verdict from the refs alone: a dropped ref, changed tag or held non-ancestor is no fast-forward, else a changed branch with a missing object is unverifiable, else a fast-forward |
| BranchProtection.PassesIff | code/crates/safehub-client/src/policy.rs:400-451 | what lets an update through: a fast-forward, or a co-signature under the key over repository, epoch, number, predecessor, refs and roster, with an honest label |
| BranchProtection.RefsOnlyAdvance | code/crates/safehub-client/src/policy.rs:391-451 | over any run without co-signatures no ref is deleted, no tag moves, and set branches move only to descendants in the full graph |
| BranchProtection.NullBranchIsUnprotected | code/crates/safehub-client/src/policy.rs:26-28 | the exception: a branch with a null name may move anywhere |
| BranchProtection.PartialVerdictAgrees | code/crates/safehub-client/src/policy.rs:124-171 | with a graph closed under ancestry intervals the verdict is the full one or unverifiable |
| BranchProtection.ContradictsIffPathMissing | code/crates/safehub-client/src/policy.rs:46-65 | otherwise it contradicts exactly when the joining path is missing locally, and then only by rejecting |
| BranchProtection.GraftContradicts | code/crates/safehub-client/src/policy.rs:46-65 | three commits of which a graft keeps the outer two: the whole graph says fast-forward and the grafted one non-fast-forward |
| Quorum.EncodeAdminQuorum | code/crates/safehub-client/src/policy.rs:457-472 | encodes exactly the valid thresholds with signatures below 2^32 bytes and names the error of the others |
| Quorum.DecodeAdminQuorum | code/crates/safehub-client/src/policy.rs:474-499 | the frame loop computes the parsing function and rejects trailing bytes |
| Quorum.DecodeInvertsEncode | code/crates/safehub-client/src/policy.rs:457-499 | decoding inverts encoding |
| Quorum.EncodeInvertsDecode | code/crates/safehub-client/src/policy.rs:457-499 | a decoded bundle re-encodes to the same bytes, and is one the encoder accepts exactly when 1 <= m <= n |
| Quorum.AdminQuorumVerify | code/crates/safehub-client/src/policy.rs:501-541 | accepts if and only if there are enough keys and at least m positions verify under their own key; the 8-bit counter never saturates first |
| Quorum.AdminCosigMessage | code/crates/safehub-crypto/src/mldsa.rs:123-146 | appending field after field produces the transcript below |
| Quorum.CosigMessageLayout | code/crates/safehub-crypto/src/mldsa.rs:123-146 | where each field stands in the co-signed string |
| Quorum.CosigMessageInjective | code/crates/safehub-crypto/src/mldsa.rs:123-146 | the transcript determines every field through its length-prefixed operation |
| Quorum.RosterTranscript | code/crates/safehub-client/src/policy.rs:230-244 | sorting and appending produce the hashed string below, truncated prefixes included |
| Quorum.RosterInputIsMultiset | code/crates/safehub-client/src/policy.rs:226-244 | permuting a roster never changes the hashed string, and while counts and lengths fit 32 bits only permutations share it |
| Quorum.RosterOfTwo | code/crates/safehub-client/src/policy.rs:226-244 | two keys are hashed in dictionary order, each after its length |

## Left out

- The primitives themselves: SHA-512, HMAC, HKDF, ML-DSA-87, OpenMLS, random generation and zeroization.
- HTTP, authentication, accounts, membership, command-line programs, HTML, collaboration features, the MLS
  delivery queue and the key log; the server's status codes for append errors.
- Text encodings: chunk ids are digests rather than their hexadecimal form, and the sealed ref map is an
  arbitrary pair of write and read functions of which round trips assume that reading inverts writing.
- Older stored forms: JSON tips and log entries, and epoch files without a token.
- Numbers at the top of the 64-bit range: sequence numbers and epochs are taken below the value where adding one
  overflows, and strings are shorter than 2^64 bytes.
- Temporary files and directory syncs: each atomic file write of the head log happens or does not.
- Backoff times, parallelism inside an upload wave, and the two seeks failing.
- Digests of checkpoints and epochs in the fork comparison are arbitrary functions, so nothing rests on what
  they hash; the leaf-signature transcript, which carries no lengths, determines a head only at given lengths.
- Git itself: a repository is its object set and its ancestry answers.
- Signing: heads are modelled before or after signing, with signatures as given bytes.
- PythonDecoder.DecodeRefHead: states acceptance, fields and the hashed bytes, not which exception a rejected
  string raises.
- Chunker.Reader.Read: models interruptions as a finite script, so a source that is interrupted for ever is
  outside the model.
- Bundles.BuildPushPlan: takes the epoch key as an argument; `EpochKeys` says which key that is.
- HeadStore.LocalStore.Tip: reads `tip.bin` only; the older `tip.json` is not modelled. The JSON reading of a
  file's bytes is part of the format's arbitrary `decode`.
- HeadStore.LocalStore.Since: lists `{seq}.bin` files only, not the older `{seq}.json` ones.
- FetchVerify.FetchHeadsSince: stops after the tip check; decrypting one head after the other is
  `Bundles.FetchHeadBundle`.
- Quorum.RosterInputIsMultiset: says nothing of which longer rosters share a string once counts or lengths reach
  2^32 and their prefixes are truncated.
- PushProtocol.RunKeeps: epochs have one key each; that members hold the same one is
  `EpochKeys.FullJoinerAgrees` and `EpochKeys.ForwardOnlyJoinerAgrees`.
- FastForward.ClassifyFf: Git processes that cannot be started are outside the model.
- AcceptedReceipts.AcceptedIff: for windows in rising order of numbers, as a fetch returns them; on others the first
  and last held heads of an epoch stand for its ends, as `Consolidation.VerifyConsolidationWindow` states.
