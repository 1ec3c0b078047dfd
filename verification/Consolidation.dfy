/** Consolidation receipts: what an admin signs about a span of the log, and how a
    reader that holds only part of the span checks it. */
module Consolidation {
  import opened Bytes
  import opened Primitives
  import opened RefHeads
  import opened HeadFormats
  import opened OrderedMaps
  import opened Merkle
  import Quorum

  /** The primitives in use: hashing, hashing of heads, and signature checking. */
  datatype Kit = Kit(sha: Bytes -> Digest, hash: HashFn, verify: Quorum.VerifyFn)

  datatype Commitment = Commitment(lo: u64, hi: u64, digest: Digest)

  datatype CheckpointBinding = CheckpointBinding(atSeq: u64, anchorHead: Digest, refsDigest: Digest, bundleRoot: Digest)

  datatype Receipt = Receipt(repoId: Bytes32, epoch: u64, fromSeq: u64, toSeq: u64, logicalRoot: Digest,
                             commitments: map<u64, Commitment>, checkpoint: Option<CheckpointBinding>, adminSig: Bytes)

  datatype Plan = Plan(receipt: Receipt, leaves: seq<Digest>)

  datatype ConsolidationError =
    | EmptySpan | NotContiguous | NoKeys | Unsigned | NotAuthorized | OutsideSpan
    | NoProof | WrongIndex | WrongRoot | OmittedEpoch | ChangedEpoch | NarrowEpoch
    | NoCheckpoint | OtherRepository | OtherSeq | OtherHead | OtherRefs | CheckpointOutsideSpan

  // ---- Hashed strings ----------------------------------------------------------------------

  function LeafInput(hash: HashFn, h: RefHead): (b: Bytes)
    ensures |b| == 166
  {
    DomainLabel("consol-leaf") + (LE64(h.seqNo) + (hash(h) + (h.bundleRoot + LE64(h.epoch))))
  }

  function NodeInput(p: (Digest, Digest)): (b: Bytes)
    ensures |b| == 150
  {
    DomainLabel("consol-node") + (p.0 + p.1)
  }

  function Leaf(k: Kit, h: RefHead): Digest { k.sha(LeafInput(k.hash, h)) }

  function Node(k: Kit): NodeFn { (l: Digest, r: Digest) => k.sha(NodeInput((l, r))) }

  function EmptyRoot(k: Kit): Digest { k.sha(DomainLabel("consol-empty")) }

  function Leaves(k: Kit, heads: seq<RefHead>): (r: seq<Digest>)
    ensures |r| == |heads|
    ensures forall i {:trigger r[i]} :: 0 <= i < |heads| ==> r[i] == Leaf(k, heads[i])
  {
    seq<Digest>(|heads|, i requires 0 <= i < |heads| => Leaf(k, heads[i]))
  }

  function RefsInput(repo: Bytes32, atSeq: u64, refs: Bytes): Bytes
    requires |refs| < TWO_TO_64
  {
    DomainLabel("consol-refs") + (repo + (LE64(atSeq) + (LE64(|refs|) + refs)))
  }

  function RefsDigest(k: Kit, repo: Bytes32, atSeq: u64, refs: Bytes): Digest
    requires |refs| < TWO_TO_64
  {
    k.sha(RefsInput(repo, atSeq, refs))
  }

  // ---- Epoch commitments ---------------------------------------------------------------------

  function EpochHeads(heads: seq<RefHead>, epoch: u64): (r: seq<RefHead>)
    ensures forall h :: h in r <==> h in heads && h.epoch == epoch
  {
    if heads == [] then []
    else
      assert heads == [heads[0]] + heads[1..];
      if heads[0].epoch == epoch then [heads[0]] + EpochHeads(heads[1..], epoch)
      else EpochHeads(heads[1..], epoch)
  }

  function SeqsAndHashes(hash: HashFn, heads: seq<RefHead>): Bytes {
    if heads == [] then [] else LE64(heads[0].seqNo) + hash(heads[0]) + SeqsAndHashes(hash, heads[1..])
  }

  function EpochDigest(k: Kit, epoch: u64, group: seq<RefHead>): Digest {
    k.sha(DomainLabel("consol-epoch") + LE64(epoch) + SeqsAndHashes(k.hash, group))
  }

  function CommitTo(k: Kit, epoch: u64, group: seq<RefHead>): Commitment
    requires group != []
  {
    Commitment(group[0].seqNo, group[|group| - 1].seqNo, EpochDigest(k, epoch, group))
  }

  function EpochsOf(heads: seq<RefHead>): set<u64> {
    set h | h in heads :: h.epoch
  }

  function EpochCommitments(k: Kit, heads: seq<RefHead>): map<u64, Commitment> {
    map e | e in EpochsOf(heads) :: CommitmentAt(k, heads, e)
  }

  function CommitmentAt(k: Kit, heads: seq<RefHead>, e: u64): Commitment
    requires e in EpochsOf(heads)
  {
    EpochIsHeld(heads, e);
    CommitTo(k, e, EpochHeads(heads, e))
  }

  lemma EpochIsHeld(heads: seq<RefHead>, e: u64)
    requires e in EpochsOf(heads)
    ensures EpochHeads(heads, e) != []
  {
    var h :| h in heads && h.epoch == e;
    assert h in EpochHeads(heads, e);
  }

  // ---- The signed transcript -----------------------------------------------------------------

  function Row(e: u64, c: Commitment): (b: Bytes)
    ensures |b| == 88
  {
    LE64(e) + (LE64(c.lo) + (LE64(c.hi) + c.digest))
  }

  function Rows(keys: seq<u64>, m: map<u64, Commitment>): (b: Bytes)
    requires forall e :: e in keys ==> e in m
    ensures |b| == 88 * |keys|
  {
    if keys == [] then [] else Row(keys[0], m[keys[0]]) + Rows(keys[1..], m)
  }

  function Tail(cp: Option<CheckpointBinding>): (b: Bytes)
    ensures |b| == if cp.None? then 1 else 201
  {
    match cp
    case None => [0]
    case Some(c) => [1] + (LE64(c.atSeq) + (c.anchorHead + (c.refsDigest + c.bundleRoot)))
  }

  function FixedPart(r: Receipt): (b: Bytes)
    ensures |b| == 144
  {
    DomainLabel("consolidation") + (r.repoId + (LE64(r.epoch) + (LE64(r.fromSeq) + (LE64(r.toSeq) + r.logicalRoot))))
  }

  function Message(r: Receipt): Bytes {
    FixedPart(r) + (Rows(SortedKeys(r.commitments.Keys), r.commitments) + Tail(r.checkpoint))
  }

  method ConsolidationMessage(r: Receipt) returns (msg: Bytes)
    ensures msg == Message(r)
  {
    msg := DomainLabel("consolidation");
    msg := msg + r.repoId;
    msg := msg + LE64(r.epoch);
    msg := msg + LE64(r.fromSeq);
    msg := msg + LE64(r.toSeq);
    msg := msg + r.logicalRoot;
    assert msg == FixedPart(r);
    msg := AppendRows(msg, r.commitments);
    ghost var before := msg;
    match r.checkpoint {
      case None => msg := msg + [0];
      case Some(c) =>
        msg := msg + [1];
        msg := msg + LE64(c.atSeq);
        msg := msg + c.anchorHead;
        msg := msg + c.refsDigest;
        msg := msg + c.bundleRoot;
    }
    assert msg == before + Tail(r.checkpoint);
    Quorum.SumRegroup(FixedPart(r), Rows(SortedKeys(r.commitments.Keys), r.commitments), Tail(r.checkpoint));
  }

  method AppendRow(start: Bytes, e: u64, c: Commitment) returns (msg: Bytes)
    ensures msg == start + Row(e, c)
  {
    msg := start + LE64(e);
    msg := msg + LE64(c.lo);
    msg := msg + LE64(c.hi);
    msg := msg + c.digest;
  }

  method AppendRows(start: Bytes, m: map<u64, Commitment>) returns (msg: Bytes)
    ensures msg == start + Rows(SortedKeys(m.Keys), m)
  {
    var keys := SortedKeys(m.Keys);
    msg := start;
    assert keys[0..] == keys;
    for i := 0 to |keys|
      invariant msg + Rows(keys[i..], m) == start + Rows(keys, m)
    {
      var e := keys[i];
      assert e in keys;
      RowsHead(keys, i, m);
      Quorum.SumRegroup(msg, Row(e, m[e]), Rows(keys[i + 1..], m));
      msg := AppendRow(msg, e, m[e]);
    }
    assert msg + [] == msg;
  }

  lemma RowsHead(keys: seq<u64>, i: nat, m: map<u64, Commitment>)
    requires i < |keys| && forall e :: e in keys ==> e in m
    ensures Rows(keys[i..], m) == Row(keys[i], m[keys[i]]) + Rows(keys[i + 1..], m)
  {
    assert keys[i..][1..] == keys[i + 1..] && keys[i..][0] == keys[i];
  }

  // ---- Planning --------------------------------------------------------------------------------

  ghost predicate Consecutive(heads: seq<RefHead>) {
    forall i :: 0 <= i < |heads| ==> heads[i].seqNo == heads[0].seqNo + i
  }

  function PlanFor(k: Kit, repo: Bytes32, epoch: u64, heads: seq<RefHead>): Plan
    requires heads != []
  {
    Plan(Receipt(repo, epoch, heads[0].seqNo, heads[|heads| - 1].seqNo,
                 Root(Node(k), EmptyRoot(k), Leaves(k, heads)), EpochCommitments(k, heads), None, []),
         Leaves(k, heads))
  }

  method PlanConsolidation(k: Kit, repo: Bytes32, epoch: u64, heads: seq<RefHead>)
    returns (r: Result<Plan, ConsolidationError>)
    ensures heads == [] ==> r == Err(EmptySpan)
    ensures heads != [] ==> r == if Consecutive(heads) then Ok(PlanFor(k, repo, epoch, heads)) else Err(NotContiguous)
  {
    if heads == [] { return Err(EmptySpan); }
    for i := 1 to |heads|
      invariant forall j :: 0 <= j < i ==> heads[j].seqNo == heads[0].seqNo + j
    {
      if heads[i].seqNo != heads[i - 1].seqNo + 1 {
        assert heads[i].seqNo != heads[0].seqNo + i;
        return Err(NotContiguous);
      }
    }
    var leaves := Leaves(k, heads);
    var root := MerkleRoot(Node(k), EmptyRoot(k), leaves);
    r := Ok(Plan(Receipt(repo, epoch, heads[0].seqNo, heads[|heads| - 1].seqNo, root,
                         EpochCommitments(k, heads), None, []), leaves));
  }

  function CheckpointFor(k: Kit, repo: Bytes32, anchor: RefHead, refs: Bytes, bundleRoot: Digest): CheckpointBinding
    requires |refs| < TWO_TO_64
  {
    CheckpointBinding(anchor.seqNo, k.hash(anchor), RefsDigest(k, repo, anchor.seqNo, refs), bundleRoot)
  }

  method PlanCompaction(k: Kit, repo: Bytes32, epoch: u64, heads: seq<RefHead>, refs: Bytes, bundleRoot: Digest)
    returns (r: Result<Plan, ConsolidationError>)
    requires |refs| < TWO_TO_64
    ensures r.Ok? <==> heads != [] && Consecutive(heads)
    ensures r.Ok? ==>
              var plan := PlanFor(k, repo, epoch, heads);
              var cp := CheckpointFor(k, repo, heads[|heads| - 1], refs, bundleRoot);
              r.value == plan.(receipt := plan.receipt.(checkpoint := Some(cp)))
  {
    var planned := PlanConsolidation(k, repo, epoch, heads);
    if planned.Err? { return Err(planned.error); }
    var plan, anchor := planned.value, heads[|heads| - 1];
    r := Ok(plan.(receipt := plan.receipt.(checkpoint := Some(CheckpointFor(k, repo, anchor, refs, bundleRoot)))));
  }

  method ProofFor(k: Kit, plan: Plan, seqNo: u64) returns (r: Option<Path>)
    ensures r.Some? <==> plan.receipt.fromSeq <= seqNo <= plan.receipt.toSeq
                         && seqNo - plan.receipt.fromSeq < |plan.leaves|
    ensures r.Some? ==> var i := seqNo - plan.receipt.fromSeq; r.value == Path(i, Steps(Node(k), plan.leaves, i))
  {
    if seqNo < plan.receipt.fromSeq || seqNo > plan.receipt.toSeq { return None; }
    r := MerklePath(Node(k), plan.leaves, seqNo - plan.receipt.fromSeq);
  }

  // ---- Authorization ---------------------------------------------------------------------------

  predicate AnyKey(verify: Quorum.VerifyFn, vks: seq<Bytes>, msg: Bytes, sig: Bytes) {
    exists vk :: vk in vks && verify(vk, msg, sig)
  }

  /** How many signatures of the bundle verify under some key; signers may repeat. */
  function ValidSignatures(verify: Quorum.VerifyFn, vks: seq<Bytes>, msg: Bytes, sigs: seq<Opaque>): (n: nat)
    ensures n <= |sigs|
  {
    if sigs == [] then 0
    else ValidSignatures(verify, vks, msg, sigs[..|sigs| - 1]) +
         (if AnyKey(verify, vks, msg, sigs[|sigs| - 1]) then 1 else 0)
  }

  predicate Authorized(verify: Quorum.VerifyFn, vks: seq<Bytes>, msg: Bytes, sig: Bytes) {
    match Quorum.DecodeQuorum(sig)
    case Some((m, sigs)) => ValidSignatures(verify, vks, msg, sigs) >= m as nat
    case None => AnyKey(verify, vks, msg, sig)
  }

  method TryKeys(verify: Quorum.VerifyFn, vks: seq<Bytes>, msg: Bytes, sig: Bytes) returns (ok: bool)
    ensures ok <==> AnyKey(verify, vks, msg, sig)
  {
    for i := 0 to |vks|
      invariant forall j :: 0 <= j < i ==> !verify(vks[j], msg, sig)
    {
      if verify(vks[i], msg, sig) { return true; }
    }
    ok := false;
  }

  method VerifyQuorumOver(verify: Quorum.VerifyFn, vks: seq<Bytes>, msg: Bytes, m: byte, sigs: seq<Opaque>)
    returns (accepted: bool)
    requires |sigs| <= 255
    ensures accepted <==> ValidSignatures(verify, vks, msg, sigs) >= m as nat
  {
    var ok: byte := 0;
    for i := 0 to |sigs|
      invariant ok as nat == ValidSignatures(verify, vks, msg, sigs[..i])
    {
      var any := TryKeys(verify, vks, msg, sigs[i]);
      assert sigs[..i + 1][..i] == sigs[..i];
      if any { ok := Quorum.SaturatingInc(ok); }
    }
    assert sigs[..|sigs|] == sigs;
    accepted := ok >= m;
  }

  method VerifyAdminAuthorization(verify: Quorum.VerifyFn, vks: seq<Bytes>, msg: Bytes, sig: Bytes) returns (ok: bool)
    ensures ok <==> Authorized(verify, vks, msg, sig)
  {
    var decoded := Quorum.DecodeAdminQuorum(sig);
    if decoded.Some? {
      Quorum.EncodeInvertsDecode(sig);
      ok := VerifyQuorumOver(verify, vks, msg, decoded.value.0, decoded.value.1);
    } else {
      ok := TryKeys(verify, vks, msg, sig);
    }
  }

  // ---- Checking a receipt from a window ----------------------------------------------------------

  function InSpan(r: Receipt, heads: seq<RefHead>): (span: seq<RefHead>)
    ensures forall h :: h in span <==> h in heads && r.fromSeq <= h.seqNo <= r.toSeq
  {
    if heads == [] then []
    else
      assert heads == [heads[0]] + heads[1..];
      if r.fromSeq <= heads[0].seqNo <= r.toSeq then [heads[0]] + InSpan(r, heads[1..])
      else InSpan(r, heads[1..])
  }

  predicate Included(k: Kit, r: Receipt, proofs: map<u64, Path>, h: RefHead) {
    && h.seqNo in proofs
    && proofs[h.seqNo].index == h.seqNo - r.fromSeq
    && Climb(Node(k), Leaf(k, h), proofs[h.seqNo].steps) == r.logicalRoot
  }

  /** The receipt covers at least the epoch's heads held here, and commits to the same
      heads when it covers exactly those. */
  predicate EpochCovered(r: Receipt, e: u64, mine: Commitment) {
    && e in r.commitments
    && r.commitments[e].lo <= mine.lo && mine.hi <= r.commitments[e].hi
    && (mine.lo == r.commitments[e].lo && mine.hi == r.commitments[e].hi ==> mine.digest == r.commitments[e].digest)
  }

  function FindSeq(heads: seq<RefHead>, s: u64): (r: Option<RefHead>)
    ensures r.Some? ==> r.value in heads && r.value.seqNo == s
    ensures r.None? ==> forall h :: h in heads ==> h.seqNo != s
  {
    if heads == [] then None else if heads[0].seqNo == s then Some(heads[0]) else FindSeq(heads[1..], s)
  }

  predicate CheckpointFits(k: Kit, r: Receipt, span: seq<RefHead>) {
    match r.checkpoint
    case None => true
    case Some(cp) =>
      var anchor := FindSeq(span, cp.atSeq);
      (anchor.Some? ==> k.hash(anchor.value) == cp.anchorHead) && r.fromSeq <= cp.atSeq <= r.toSeq
  }

  predicate Signed(k: Kit, r: Receipt, vks: seq<Bytes>) {
    vks != [] && r.adminSig != [] && Authorized(k.verify, vks, Message(r), r.adminSig)
  }

  predicate AllIncluded(k: Kit, r: Receipt, proofs: map<u64, Path>, span: seq<RefHead>) {
    forall h :: h in span ==> Included(k, r, proofs, h)
  }

  predicate EpochsCovered(r: Receipt, mine: map<u64, Commitment>) {
    forall e :: e in mine ==> EpochCovered(r, e, mine[e])
  }

  predicate AcceptsWindow(k: Kit, r: Receipt, vks: seq<Bytes>, window: seq<RefHead>, proofs: map<u64, Path>) {
    var span := InSpan(r, window);
    && Signed(k, r, vks) && span != [] && AllIncluded(k, r, proofs, span)
    && EpochsCovered(r, EpochCommitments(k, span)) && CheckpointFits(k, r, span)
  }

  method CheckInclusion(k: Kit, r: Receipt, span: seq<RefHead>, proofs: map<u64, Path>)
    returns (v: Result<(), ConsolidationError>)
    requires forall h :: h in span ==> r.fromSeq <= h.seqNo
    ensures v.Ok? <==> AllIncluded(k, r, proofs, span)
  {
    for i := 0 to |span|
      invariant forall h :: h in span[..i] ==> Included(k, r, proofs, h)
    {
      var head := span[i];
      assert head in span;
      if head.seqNo !in proofs { return Err(NoProof); }
      var path := proofs[head.seqNo];
      if path.index != head.seqNo - r.fromSeq { return Err(WrongIndex); }
      var root := MerkleRootFromPath(Node(k), Leaf(k, head), path);
      if root != r.logicalRoot { return Err(WrongRoot); }
      assert span[..i + 1] == span[..i] + [head];
    }
    assert span[..|span|] == span;
    v := Ok(());
  }

  method CheckEpochs(r: Receipt, mine: map<u64, Commitment>) returns (v: Result<(), ConsolidationError>)
    ensures v.Ok? <==> EpochsCovered(r, mine)
  {
    var keys := SortedKeys(mine.Keys);
    for i := 0 to |keys|
      invariant forall j :: 0 <= j < i ==> EpochCovered(r, keys[j], mine[keys[j]])
    {
      var e := keys[i];
      assert e in keys;
      if e !in r.commitments { return Err(OmittedEpoch); }
      var local, theirs := mine[e], r.commitments[e];
      if local.lo == theirs.lo && local.hi == theirs.hi && local.digest != theirs.digest { return Err(ChangedEpoch); }
      if local.lo < theirs.lo || local.hi > theirs.hi { return Err(NarrowEpoch); }
    }
    forall e | e in mine
      ensures EpochCovered(r, e, mine[e])
    {
      assert e in keys;
    }
    v := Ok(());
  }

  method CheckSigned(k: Kit, r: Receipt, vks: seq<Bytes>) returns (v: Result<(), ConsolidationError>)
    ensures v.Ok? <==> Signed(k, r, vks)
  {
    if vks == [] { return Err(NoKeys); }
    if r.adminSig == [] { return Err(Unsigned); }
    var msg := ConsolidationMessage(r);
    var authorized := VerifyAdminAuthorization(k.verify, vks, msg, r.adminSig);
    v := if authorized then Ok(()) else Err(NotAuthorized);
  }

  method CheckCheckpoint(k: Kit, r: Receipt, span: seq<RefHead>) returns (v: Result<(), ConsolidationError>)
    ensures v.Ok? <==> CheckpointFits(k, r, span)
  {
    if r.checkpoint.Some? {
      var cp := r.checkpoint.value;
      var anchor := FindSeq(span, cp.atSeq);
      if anchor.Some? {
        if k.hash(anchor.value) != cp.anchorHead { return Err(OtherHead); }
      }
      if cp.atSeq < r.fromSeq || cp.atSeq > r.toSeq { return Err(CheckpointOutsideSpan); }
    }
    v := Ok(());
  }

  method VerifyConsolidationWindow(k: Kit, r: Receipt, vks: seq<Bytes>, window: seq<RefHead>, proofs: map<u64, Path>)
    returns (v: Result<(), ConsolidationError>)
    ensures v.Ok? <==> AcceptsWindow(k, r, vks, window, proofs)
  {
    var _ :- CheckSigned(k, r, vks);
    var span := InSpan(r, window);
    if span == [] { return Err(OutsideSpan); }
    var _ :- CheckInclusion(k, r, span, proofs);
    var _ :- CheckEpochs(r, EpochCommitments(k, span));
    v := CheckCheckpoint(k, r, span);
  }

  // ---- Checking a checkpoint from its anchor head alone --------------------------------------------

  predicate AcceptsAnchor(k: Kit, r: Receipt, vks: seq<Bytes>, anchor: RefHead, refs: Bytes)
    requires |refs| < TWO_TO_64
  {
    && Signed(k, r, vks) && r.checkpoint.Some?
    && var cp := r.checkpoint.value;
    && anchor.repoId == r.repoId && anchor.seqNo == cp.atSeq && k.hash(anchor) == cp.anchorHead
    && RefsDigest(k, r.repoId, cp.atSeq, refs) == cp.refsDigest
    && r.fromSeq <= cp.atSeq <= r.toSeq
  }

  method VerifyCheckpointAnchor(k: Kit, r: Receipt, vks: seq<Bytes>, anchor: RefHead, refs: Bytes)
    returns (v: Result<(), ConsolidationError>)
    requires |refs| < TWO_TO_64
    ensures v.Ok? <==> AcceptsAnchor(k, r, vks, anchor, refs)
  {
    if vks == [] { return Err(NoKeys); }
    if r.adminSig == [] { return Err(Unsigned); }
    if r.checkpoint.None? { return Err(NoCheckpoint); }
    var cp := r.checkpoint.value;
    var _ :- CheckSigned(k, r, vks);
    if anchor.repoId != r.repoId { return Err(OtherRepository); }
    if anchor.seqNo != cp.atSeq { return Err(OtherSeq); }
    if k.hash(anchor) != cp.anchorHead { return Err(OtherHead); }
    if RefsDigest(k, r.repoId, cp.atSeq, refs) != cp.refsDigest { return Err(OtherRefs); }
    if cp.atSeq < r.fromSeq || cp.atSeq > r.toSeq { return Err(CheckpointOutsideSpan); }
    v := Ok(());
  }
}
