/** What an accepted consolidation receipt says about the heads its reader holds. */
module AcceptedReceipts {
  import opened Bytes
  import opened Primitives
  import opened RefHeads
  import opened HeadFormats
  import opened OrderedMaps
  import opened Merkle
  import opened Consolidation
  import opened ConsolidationGuarantees

  // ---- The hashed and signed strings -------------------------------------------------------------

  lemma LeafInputLayout(hash: HashFn, h: RefHead)
    ensures var b := LeafInput(hash, h);
            && b[..22] == Ascii("safehub-v1:consol-leaf") && b[22..30] == LE64(h.seqNo) && b[30..94] == hash(h)
            && b[94..158] == h.bundleRoot && b[158..] == LE64(h.epoch)
  {
    assert "safehub-v1:" + "consol-leaf" == "safehub-v1:consol-leaf";
  }

  lemma NodeInputLayout(l: Digest, r: Digest)
    ensures var b := NodeInput((l, r));
            b[..22] == Ascii("safehub-v1:consol-node") && b[22..86] == l && b[86..] == r
  {
    assert "safehub-v1:" + "consol-node" == "safehub-v1:consol-node";
  }

  lemma RefsInputLayout(repo: Bytes32, atSeq: u64, refs: Bytes)
    requires |refs| < TWO_TO_64
    ensures var b := RefsInput(repo, atSeq, refs);
            && |b| == 70 + |refs| && b[..22] == Ascii("safehub-v1:consol-refs") && b[22..54] == repo
            && b[54..62] == LE64(atSeq) && b[62..70] == LE64(|refs|) && b[70..] == refs
  {
    assert "safehub-v1:" + "consol-refs" == "safehub-v1:consol-refs";
  }

  lemma FixedPartLayout(r: Receipt)
    ensures var b := FixedPart(r);
            && b[..24] == Ascii("safehub-v1:consolidation") && b[24..56] == r.repoId && b[56..64] == LE64(r.epoch)
            && b[64..72] == LE64(r.fromSeq) && b[72..80] == LE64(r.toSeq) && b[80..] == r.logicalRoot
  {
    assert "safehub-v1:" + "consolidation" == "safehub-v1:consolidation";
  }

  /** The row of an epoch: epoch, first and last number, digest. */
  ghost predicate IsRow(row: Bytes, e: u64, c: Commitment) {
    |row| == 88 && row[..8] == LE64(e) && row[8..16] == LE64(c.lo) && row[16..24] == LE64(c.hi) && row[24..] == c.digest
  }

  lemma RowLayout(e: u64, c: Commitment)
    ensures IsRow(Row(e, c), e, c)
  {
  }

  lemma {:induction false} RowsLayout(keys: seq<u64>, m: map<u64, Commitment>, i: nat)
    requires i < |keys| && forall e :: e in keys ==> e in m
    ensures IsRow(Rows(keys, m)[88 * i..88 * (i + 1)], keys[i], m[keys[i]])
  {
    var rest := Rows(keys[1..], m);
    if i == 0 {
      RowLayout(keys[0], m[keys[0]]);
      assert Rows(keys, m)[..88] == Row(keys[0], m[keys[0]]);
    } else {
      RowsLayout(keys[1..], m, i - 1);
      assert Rows(keys, m)[88 * i..88 * (i + 1)] == rest[88 * (i - 1)..88 * i];
    }
  }

  lemma TailLayout(c: CheckpointBinding)
    ensures Tail(None) == [0]
    ensures var b := Tail(Some(c));
            && b[0] == 1 && b[1..9] == LE64(c.atSeq) && b[9..73] == c.anchorHead && b[73..137] == c.refsDigest
            && b[137..] == c.bundleRoot
  {
    var rest := LE64(c.atSeq) + (c.anchorHead + (c.refsDigest + c.bundleRoot));
    assert Tail(Some(c)) == [1] + rest;
    assert rest[..8] == LE64(c.atSeq) && rest[8..72] == c.anchorHead && rest[72..136] == c.refsDigest;
  }

  lemma RowOfMessage(r: Receipt, keys: seq<u64>, i: nat)
    requires keys == SortedKeys(r.commitments.Keys) && i < |keys|
    ensures |Message(r)| >= 144 + 88 * (i + 1)
    ensures IsRow(Message(r)[144 + 88 * i..144 + 88 * (i + 1)], keys[i], r.commitments[keys[i]])
  {
    RowsLayout(keys, r.commitments, i);
    InSum(FixedPart(r), Rows(keys, r.commitments), Tail(r.checkpoint), 88 * i, 88 * (i + 1));
  }

  lemma InSum(a: Bytes, b: Bytes, c: Bytes, i: nat, j: nat)
    requires i <= j <= |b|
    ensures var s := a + (b + c); s[..|a|] == a && s[|a| + i..|a| + j] == b[i..j] && s[|a| + |b|..] == c
  {
    assert (a + (b + c))[|a|..] == b + c;
  }

  /** The signed transcript: a fixed part of 144 bytes, the rows of the epochs in ascending order,
      and the checkpoint or a zero byte. */
  lemma TranscriptLayout(r: Receipt) returns (keys: seq<u64>)
    ensures Ascending(keys) && forall e :: e in keys <==> e in r.commitments
    ensures var b, n := Message(r), 144 + 88 * |keys|;
            |b| >= n && b[..144] == FixedPart(r) && b[n..] == Tail(r.checkpoint)
    ensures forall i :: 0 <= i < |keys| ==>
              IsRow(Message(r)[144 + 88 * i..144 + 88 * (i + 1)], keys[i], r.commitments[keys[i]])
  {
    keys := SortedKeys(r.commitments.Keys);
    InSum(FixedPart(r), Rows(keys, r.commitments), Tail(r.checkpoint), 0, 0);
    forall i | 0 <= i < |keys|
      ensures IsRow(Message(r)[144 + 88 * i..144 + 88 * (i + 1)], keys[i], r.commitments[keys[i]])
    {
      RowOfMessage(r, keys, i);
    }
  }

  // ---- Epoch digests --------------------------------------------------------------------------------

  /** The string that the digest of an epoch hashes. */
  function EpochInput(hash: HashFn, e: u64, g: seq<RefHead>): (b: Bytes)
    ensures |b| == 31 + |SeqsAndHashes(hash, g)|
  {
    Ascii("safehub-v1:consol-epoch") + (LE64(e) + SeqsAndHashes(hash, g))
  }

  lemma EpochDigestIsHash(k: Kit, e: u64, g: seq<RefHead>)
    ensures EpochDigest(k, e, g) == k.sha(EpochInput(k.hash, e, g))
  {
    assert "safehub-v1:" + "consol-epoch" == "safehub-v1:consol-epoch";
    var domain := Ascii("safehub-v1:consol-epoch");
    assert domain + LE64(e) + SeqsAndHashes(k.hash, g) == EpochInput(k.hash, e, g);
  }

  /** Seventy-two bytes a head: its number, then its hash. */
  lemma {:induction false} SeqsAndHashesLayout(hash: HashFn, g: seq<RefHead>, i: nat)
    requires i < |g|
    ensures var b := SeqsAndHashes(hash, g);
            |b| == 72 * |g| && b[72 * i..72 * i + 8] == LE64(g[i].seqNo) && b[72 * i + 8..72 * (i + 1)] == hash(g[i])
  {
    var b, rest := SeqsAndHashes(hash, g), SeqsAndHashes(hash, g[1..]);
    if i > 0 {
      SeqsAndHashesLayout(hash, g[1..], i - 1);
      assert b[72 * i..72 * i + 8] == rest[72 * (i - 1)..72 * (i - 1) + 8];
      assert b[72 * i + 8..72 * (i + 1)] == rest[72 * (i - 1) + 8..72 * i];
    } else {
      if |g| > 1 { SeqsAndHashesLayout(hash, g[1..], 0); }
      assert b[..72] == LE64(g[0].seqNo) + hash(g[0]);
    }
  }

  lemma SizeOfPairs(hash: HashFn, g: seq<RefHead>)
    ensures |SeqsAndHashes(hash, g)| == 72 * |g|
  {
    if g != [] { SeqsAndHashesLayout(hash, g, 0); }
  }

  /** The hashed string determines the heads, unless two of them have one hash. */
  lemma EpochInputInjective(hash: HashFn, e: u64, a: seq<RefHead>, b: seq<RefHead>)
    requires EpochInput(hash, e, a) == EpochInput(hash, e, b) && NoCollision(hash, SetOf(a) + SetOf(b))
    ensures a == b
  {
    var domain, x, y := Ascii("safehub-v1:consol-epoch"), SeqsAndHashes(hash, a), SeqsAndHashes(hash, b);
    SplitEqual(domain, LE64(e) + x, domain, LE64(e) + y);
    SplitEqual(LE64(e), x, LE64(e), y);
    SizeOfPairs(hash, a);
    SizeOfPairs(hash, b);
    forall i | 0 <= i < |a|
      ensures a[i] == b[i]
    {
      SeqsAndHashesLayout(hash, a, i);
      SeqsAndHashesLayout(hash, b, i);
      assert a[i] in SetOf(a) + SetOf(b) && b[i] in SetOf(a) + SetOf(b);
    }
  }

  // ---- Acceptance, check by check -------------------------------------------------------------------

  /** A head of the window that the receipt speaks for. */
  ghost predicate Held(r: Receipt, window: seq<RefHead>, h: RefHead) { h in window && r.fromSeq <= h.seqNo <= r.toSeq }

  ghost predicate HeldIn(r: Receipt, window: seq<RefHead>, e: u64, h: RefHead) { Held(r, window, h) && h.epoch == e }

  /** The held heads of an epoch, in the order of the window. */
  function HeldHeads(r: Receipt, window: seq<RefHead>, e: u64): (g: seq<RefHead>)
    ensures forall h :: h in g <==> HeldIn(r, window, e, h)
  {
    EpochHeads(InSpan(r, window), e)
  }

  lemma {:induction false} SpanRises(r: Receipt, window: seq<RefHead>)
    requires Rising(window)
    ensures Rising(InSpan(r, window))
  {
    if window != [] {
      SpanRises(r, window[1..]);
      var rest := InSpan(r, window[1..]);
      forall i | 0 <= i < |rest|
        ensures window[0].seqNo < rest[i].seqNo
      {
        assert rest[i] in window[1..];
      }
    }
  }

  /** A rising sequence runs from its least to its greatest number. */
  lemma EndsAreExtreme(g: seq<RefHead>, first: RefHead, last: RefHead)
    requires Rising(g) && g != [] && first == g[0] && last == g[|g| - 1]
    ensures first in g && last in g && forall x :: x in g ==> first.seqNo <= x.seqNo <= last.seqNo
  {
    forall x | x in g
      ensures first.seqNo <= x.seqNo <= last.seqNo
    {
      var i :| 0 <= i < |g| && g[i] == x;
    }
  }

  lemma HeldRise(r: Receipt, window: seq<RefHead>, e: u64)
    requires Rising(window)
    ensures Rising(HeldHeads(r, window, e))
  {
    SpanRises(r, window);
    EpochHeadsRise(InSpan(r, window), e);
  }

  ghost predicate HoldsNumber(r: Receipt, window: seq<RefHead>, e: u64, s: u64) {
    exists h :: HeldIn(r, window, e, h) && h.seqNo == s
  }

  /** The receipt lists the epoch, with a span around the held numbers, and when heads of both
      ends of that span are held its digest is the hash of the held heads. */
  ghost predicate EpochIsRight(k: Kit, r: Receipt, window: seq<RefHead>, e: u64) {
    && e in r.commitments
    && (forall h :: HeldIn(r, window, e, h) ==> r.commitments[e].lo <= h.seqNo <= r.commitments[e].hi)
    && (HoldsNumber(r, window, e, r.commitments[e].lo) && HoldsNumber(r, window, e, r.commitments[e].hi) ==>
          r.commitments[e].digest == k.sha(EpochInput(k.hash, e, HeldHeads(r, window, e))))
  }

  /** `first` and `last` carry the least and the greatest held number of the epoch. */
  ghost predicate Ends(r: Receipt, window: seq<RefHead>, e: u64, first: RefHead, last: RefHead) {
    && HeldIn(r, window, e, first) && HeldIn(r, window, e, last)
    && forall x :: HeldIn(r, window, e, x) ==> first.seqNo <= x.seqNo <= last.seqNo
  }

  lemma HeldEnds(r: Receipt, window: seq<RefHead>, e: u64)
    requires Rising(window) && HeldHeads(r, window, e) != []
    ensures var g := HeldHeads(r, window, e); Ends(r, window, e, g[0], g[|g| - 1])
  {
    var g := HeldHeads(r, window, e);
    HeldRise(r, window, e);
    EndsAreExtreme(g, g[0], g[|g| - 1]);
  }

  /** What the reader computes for an epoch it holds a head of. */
  lemma OwnCommitment(k: Kit, r: Receipt, window: seq<RefHead>, e: u64, h: RefHead) returns (c: Commitment)
    requires HeldIn(r, window, e, h)
    ensures e in EpochCommitments(k, InSpan(r, window)) && c == EpochCommitments(k, InSpan(r, window))[e]
    ensures var g := HeldHeads(r, window, e);
            && g != [] && c.lo == g[0].seqNo && c.hi == g[|g| - 1].seqNo && c.digest == k.sha(EpochInput(k.hash, e, g))
  {
    var span := InSpan(r, window);
    assert h in span && e in EpochsOf(span) && h in HeldHeads(r, window, e);
    EpochDigestIsHash(k, e, HeldHeads(r, window, e));
    c := CommitmentAt(k, span, e);
  }

  lemma CoveredByEnds(k: Kit, r: Receipt, window: seq<RefHead>, e: u64, first: RefHead, last: RefHead, digest: Digest)
    requires Ends(r, window, e, first, last) && digest == k.sha(EpochInput(k.hash, e, HeldHeads(r, window, e)))
    ensures EpochCovered(r, e, Commitment(first.seqNo, last.seqNo, digest)) <==> EpochIsRight(k, r, window, e)
  {
    if e in r.commitments {
      var c := r.commitments[e];
      if c.lo <= first.seqNo && last.seqNo <= c.hi { HoldsEnds(r, window, e, first, last, c.lo, c.hi); }
    }
  }

  lemma CoveredByOwn(k: Kit, r: Receipt, window: seq<RefHead>, e: u64, c: Commitment)
    requires Rising(window) && HeldHeads(r, window, e) != []
    requires var g := HeldHeads(r, window, e);
             c.lo == g[0].seqNo && c.hi == g[|g| - 1].seqNo && c.digest == k.sha(EpochInput(k.hash, e, g))
    ensures EpochCovered(r, e, c) <==> EpochIsRight(k, r, window, e)
  {
    var g := HeldHeads(r, window, e);
    var first, last := g[0], g[|g| - 1];
    assert Ends(r, window, e, first, last) by { HeldEnds(r, window, e); }
    CoveredByEnds(k, r, window, e, first, last, c.digest);
  }

  lemma EpochIsRightIff(k: Kit, r: Receipt, window: seq<RefHead>, e: u64, h: RefHead)
    requires Rising(window) && HeldIn(r, window, e, h)
    ensures e in EpochCommitments(k, InSpan(r, window))
    ensures EpochCovered(r, e, EpochCommitments(k, InSpan(r, window))[e]) <==> EpochIsRight(k, r, window, e)
  {
    var c := OwnCommitment(k, r, window, e, h);
    CoveredByOwn(k, r, window, e, c);
  }

  lemma HoldsEnds(r: Receipt, window: seq<RefHead>, e: u64, first: RefHead, last: RefHead, lo: u64, hi: u64)
    requires Ends(r, window, e, first, last) && lo <= first.seqNo && last.seqNo <= hi
    ensures HoldsNumber(r, window, e, lo) && HoldsNumber(r, window, e, hi) <==> first.seqNo == lo && last.seqNo == hi
  {
  }

  /** A held head at the checkpoint is the one that the receipt binds. */
  ghost predicate CheckpointIsRight(k: Kit, r: Receipt, window: seq<RefHead>) {
    r.checkpoint.Some? ==>
      var cp := r.checkpoint.value;
      && r.fromSeq <= cp.atSeq <= r.toSeq
      && forall h :: Held(r, window, h) && h.seqNo == cp.atSeq ==> k.hash(h) == cp.anchorHead
  }

  lemma OneHeadPerNumber(window: seq<RefHead>, g: RefHead, h: RefHead)
    requires Rising(window) && g in window && h in window && g.seqNo == h.seqNo
    ensures g == h
  {
    var i :| 0 <= i < |window| && window[i] == g;
    var j :| 0 <= j < |window| && window[j] == h;
  }

  lemma CheckpointIsRightIff(k: Kit, r: Receipt, window: seq<RefHead>)
    requires Rising(window)
    ensures CheckpointFits(k, r, InSpan(r, window)) <==> CheckpointIsRight(k, r, window)
  {
    if r.checkpoint.Some? {
      var anchor := FindSeq(InSpan(r, window), r.checkpoint.value.atSeq);
      forall h | Held(r, window, h) && h.seqNo == r.checkpoint.value.atSeq
        ensures anchor == Some(h)
      {
        assert h in InSpan(r, window);
        OneHeadPerNumber(window, anchor.value, h);
      }
    }
  }

  /** The proof given for a head is for its own place in the span and climbs to the root. */
  ghost predicate ProofIsRight(k: Kit, r: Receipt, proofs: map<u64, Path>, h: RefHead) {
    && h.seqNo in proofs && proofs[h.seqNo].index + r.fromSeq == h.seqNo
    && Climb(Node(k), k.sha(LeafInput(k.hash, h)), proofs[h.seqNo].steps) == r.logicalRoot
  }

  /** A window of rising numbers accepts a receipt if and only if it is signed under the given keys,
      some head of the window lies in its span, each such head has a proof, each epoch of such a
      head is covered, and the checkpoint fits. */
  lemma AcceptedIff(k: Kit, r: Receipt, vks: seq<Bytes>, window: seq<RefHead>, proofs: map<u64, Path>)
    requires Rising(window)
    ensures AcceptsWindow(k, r, vks, window, proofs) <==>
              && |vks| > 0 && |r.adminSig| > 0 && Authorized(k.verify, vks, Message(r), r.adminSig)
              && (exists h :: Held(r, window, h))
              && (forall h :: Held(r, window, h) ==>
                    ProofIsRight(k, r, proofs, h) && EpochIsRight(k, r, window, h.epoch))
              && CheckpointIsRight(k, r, window)
  {
    var span := InSpan(r, window);
    if span != [] { assert span[0] in span && Held(r, window, span[0]); }
    CheckpointIsRightIff(k, r, window);
    EpochsAreRightIff(k, r, window);
    InclusionIff(k, r, window, proofs);
  }

  lemma InclusionIff(k: Kit, r: Receipt, window: seq<RefHead>, proofs: map<u64, Path>)
    ensures AllIncluded(k, r, proofs, InSpan(r, window)) <==>
            forall h :: Held(r, window, h) ==> ProofIsRight(k, r, proofs, h)
  {
    assert forall h :: h in InSpan(r, window) <==> Held(r, window, h);
    forall h | Held(r, window, h)
      ensures Included(k, r, proofs, h) <==> ProofIsRight(k, r, proofs, h)
    {
    }
  }

  lemma EpochsAreRightIff(k: Kit, r: Receipt, window: seq<RefHead>)
    requires Rising(window)
    ensures EpochsCovered(r, EpochCommitments(k, InSpan(r, window))) <==>
            forall h :: Held(r, window, h) ==> EpochIsRight(k, r, window, h.epoch)
  {
    var span := InSpan(r, window);
    var mine := EpochCommitments(k, span);
    forall h | Held(r, window, h)
      ensures h.epoch in mine && (EpochCovered(r, h.epoch, mine[h.epoch]) <==> EpochIsRight(k, r, window, h.epoch))
    {
      EpochIsRightIff(k, r, window, h.epoch, h);
    }
    forall e | e in mine
      ensures exists h :: Held(r, window, h) && h.epoch == e
    {
      var h :| h in span && h.epoch == e;
    }
  }

  // ---- What a changed epoch would take ----------------------------------------------------------------

  /** Commitment soundness. Each epoch of which the reader holds a head in the span appears in an
      accepted receipt, with a span around all the held numbers. When heads at both ends of that
      span are held and the committed digest is that of the heads `g`, the held heads of the epoch
      are exactly `g`, unless the two hashed strings or two of the heads collide. */
  lemma AcceptedEpochsAreHeld(k: Kit, r: Receipt, vks: seq<Bytes>, window: seq<RefHead>, proofs: map<u64, Path>,
                              e: u64, h: RefHead, g: seq<RefHead>)
    requires AcceptsWindow(k, r, vks, window, proofs) && Rising(window)
    requires h in window && r.fromSeq <= h.seqNo <= r.toSeq && h.epoch == e
    ensures e in r.commitments && r.commitments[e].lo <= h.seqNo <= r.commitments[e].hi
    ensures && HoldsNumber(r, window, e, r.commitments[e].lo) && HoldsNumber(r, window, e, r.commitments[e].hi)
            && r.commitments[e].digest == k.sha(EpochInput(k.hash, e, g))
            && InjectiveOn(k.sha, {EpochInput(k.hash, e, HeldHeads(r, window, e)), EpochInput(k.hash, e, g)})
            && NoCollision(k.hash, SetOf(HeldHeads(r, window, e)) + SetOf(g))
            ==> HeldHeads(r, window, e) == g
  {
    AcceptedIff(k, r, vks, window, proofs);
    assert Held(r, window, h) && EpochIsRight(k, r, window, e) && HeldIn(r, window, e, h);
    if && HoldsNumber(r, window, e, r.commitments[e].lo) && HoldsNumber(r, window, e, r.commitments[e].hi)
       && r.commitments[e].digest == k.sha(EpochInput(k.hash, e, g))
       && InjectiveOn(k.sha, {EpochInput(k.hash, e, HeldHeads(r, window, e)), EpochInput(k.hash, e, g)})
       && NoCollision(k.hash, SetOf(HeldHeads(r, window, e)) + SetOf(g)) {
      EpochInputInjective(k.hash, e, HeldHeads(r, window, e), g);
    }
  }

  /** A receipt planned over a run is refused by a reader that holds both ends of an epoch of the
      run but not exactly the heads of that epoch, unless strings or heads collide. */
  lemma ChangedEpochIsRefused(k: Kit, r: Receipt, vks: seq<Bytes>, window: seq<RefHead>, proofs: map<u64, Path>,
                              e: u64, heads: seq<RefHead>)
    requires Rising(window) && e in EpochsOf(heads) && r.commitments == EpochCommitments(k, heads)
    requires HoldsNumber(r, window, e, r.commitments[e].lo) && HoldsNumber(r, window, e, r.commitments[e].hi)
    requires var mine, theirs := HeldHeads(r, window, e), EpochHeads(heads, e);
             && mine != theirs && NoCollision(k.hash, SetOf(mine) + SetOf(theirs))
             && InjectiveOn(k.sha, {EpochInput(k.hash, e, mine), EpochInput(k.hash, e, theirs)})
    ensures !AcceptsWindow(k, r, vks, window, proofs)
  {
    if AcceptsWindow(k, r, vks, window, proofs) {
      var h :| HeldIn(r, window, e, h) && h.seqNo == r.commitments[e].lo;
      EpochDigestIsHash(k, e, EpochHeads(heads, e));
      AcceptedEpochsAreHeld(k, r, vks, window, proofs, e, h, EpochHeads(heads, e));
      assert false;
    }
  }

  // ---- Checkpoints shown alone, and plans --------------------------------------------------------------

  /** A checkpoint is accepted with an anchor head and refs if and only if the receipt is signed and
      has one, the head is of the same repository, has the bound number and hash, the refs hash to
      the bound digest, and the number lies in the span. */
  lemma AnchorAcceptedIff(k: Kit, r: Receipt, vks: seq<Bytes>, anchor: RefHead, refs: Bytes)
    requires |refs| < TWO_TO_64
    ensures AcceptsAnchor(k, r, vks, anchor, refs) <==>
              && |vks| > 0 && |r.adminSig| > 0 && Authorized(k.verify, vks, Message(r), r.adminSig)
              && r.checkpoint.Some? && anchor.repoId == r.repoId && anchor.seqNo == r.checkpoint.value.atSeq
              && k.hash(anchor) == r.checkpoint.value.anchorHead && r.fromSeq <= anchor.seqNo <= r.toSeq
              && k.sha(RefsInput(r.repoId, anchor.seqNo, refs)) == r.checkpoint.value.refsDigest
  {
  }

  /** The commitment a plan makes for an epoch: the numbers of its first and last head, and the hash
      of all of them. */
  lemma PlannedCommitment(k: Kit, heads: seq<RefHead>, e: u64, h: RefHead)
    requires h in heads && h.epoch == e && Rising(heads)
    ensures e in EpochCommitments(k, heads)
    ensures var c, g := EpochCommitments(k, heads)[e], EpochHeads(heads, e);
            && c.lo <= h.seqNo <= c.hi && c.digest == k.sha(EpochInput(k.hash, e, g))
            && (exists x :: x in heads && x.epoch == e && x.seqNo == c.lo)
            && (exists y :: y in heads && y.epoch == e && y.seqNo == c.hi)
  {
    var g := EpochHeads(heads, e);
    assert h in g && e in EpochsOf(heads);
    EpochHeadsRise(heads, e);
    EndsAreExtreme(g, g[0], g[|g| - 1]);
    EpochDigestIsHash(k, e, g);
  }

  /** A plan speaks for the repository and epoch it was made for, over the numbers of its heads and
      their epochs only, and carries no signature yet. */
  lemma PlanFields(k: Kit, repo: Bytes32, epoch: u64, heads: seq<RefHead>)
    requires heads != []
    ensures var r := PlanFor(k, repo, epoch, heads).receipt;
            && r.repoId == repo && r.epoch == epoch && r.adminSig == [] && r.checkpoint == None
            && r.fromSeq == heads[0].seqNo && r.toSeq == heads[|heads| - 1].seqNo
            && forall e :: e in r.commitments <==> exists h :: h in heads && h.epoch == e
  {
    forall e
      ensures e in EpochsOf(heads) <==> exists h :: h in heads && h.epoch == e
    {
    }
  }
}
