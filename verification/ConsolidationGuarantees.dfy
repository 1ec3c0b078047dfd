/** What a consolidation receipt pins down, and which windows accept an honest one. */
module ConsolidationGuarantees {
  import opened Bytes
  import opened Primitives
  import opened RefHeads
  import opened HeadFormats
  import opened OrderedMaps
  import opened Merkle
  import opened Consolidation
  import Quorum

  // ---- The transcript determines the receipt -------------------------------------------------

  lemma FixedPartInjective(a: Receipt, b: Receipt)
    requires FixedPart(a) == FixedPart(b)
    ensures a.repoId == b.repoId && a.epoch == b.epoch && a.fromSeq == b.fromSeq && a.toSeq == b.toSeq
    ensures a.logicalRoot == b.logicalRoot
  {
    var a1, b1 := LE64(a.toSeq) + a.logicalRoot, LE64(b.toSeq) + b.logicalRoot;
    var a2, b2 := LE64(a.fromSeq) + a1, LE64(b.fromSeq) + b1;
    var tag := DomainLabel("consolidation");
    SplitEqual(tag, a.repoId + (LE64(a.epoch) + a2), tag, b.repoId + (LE64(b.epoch) + b2));
    SplitEqual(a.repoId, LE64(a.epoch) + a2, b.repoId, LE64(b.epoch) + b2);
    SplitEqual(LE64(a.epoch), a2, LE64(b.epoch), b2);
    SplitEqual(LE64(a.fromSeq), a1, LE64(b.fromSeq), b1);
    SplitEqual(LE64(a.toSeq), a.logicalRoot, LE64(b.toSeq), b.logicalRoot);
    LE64Injective(a.epoch, b.epoch);
    LE64Injective(a.fromSeq, b.fromSeq);
    LE64Injective(a.toSeq, b.toSeq);
  }

  lemma RowInjective(d: u64, c: Commitment, e: u64, f: Commitment)
    requires Row(d, c) == Row(e, f)
    ensures d == e && c == f
  {
    SplitEqual(LE64(d), LE64(c.lo) + (LE64(c.hi) + c.digest), LE64(e), LE64(f.lo) + (LE64(f.hi) + f.digest));
    SplitEqual(LE64(c.lo), LE64(c.hi) + c.digest, LE64(f.lo), LE64(f.hi) + f.digest);
    SplitEqual(LE64(c.hi), c.digest, LE64(f.hi), f.digest);
    LE64Injective(d, e);
    LE64Injective(c.lo, f.lo);
    LE64Injective(c.hi, f.hi);
  }

  lemma {:induction false} RowsInjective(js: seq<u64>, m: map<u64, Commitment>, ks: seq<u64>, n: map<u64, Commitment>)
    requires (forall e :: e in js ==> e in m) && (forall e :: e in ks ==> e in n)
    requires |js| == |ks| && Rows(js, m) == Rows(ks, n)
    ensures js == ks && forall e :: e in js ==> m[e] == n[e]
  {
    if js != [] {
      SplitEqual(Row(js[0], m[js[0]]), Rows(js[1..], m), Row(ks[0], n[ks[0]]), Rows(ks[1..], n));
      RowInjective(js[0], m[js[0]], ks[0], n[ks[0]]);
      RowsInjective(js[1..], m, ks[1..], n);
      assert js == [js[0]] + js[1..] && ks == [ks[0]] + ks[1..];
    }
  }

  lemma TailInjective(a: Option<CheckpointBinding>, b: Option<CheckpointBinding>)
    requires Tail(a) == Tail(b)
    ensures a == b
  {
    if a.Some? && b.Some? {
      var x, y := a.value, b.value;
      var x1, y1 := x.anchorHead + (x.refsDigest + x.bundleRoot), y.anchorHead + (y.refsDigest + y.bundleRoot);
      SplitEqual([1], LE64(x.atSeq) + x1, [1], LE64(y.atSeq) + y1);
      SplitEqual(LE64(x.atSeq), x1, LE64(y.atSeq), y1);
      LE64Injective(x.atSeq, y.atSeq);
      SplitEqual(x.anchorHead, x.refsDigest + x.bundleRoot, y.anchorHead, y.refsDigest + y.bundleRoot);
      SplitEqual(x.refsDigest, x.bundleRoot, y.refsDigest, y.bundleRoot);
    }
  }

  lemma SizesSplit(m: nat, n: nat, s: nat, t: nat)
    requires s in {1, 201} && t in {1, 201} && 88 * m + s == 88 * n + t
    ensures m == n && s == t
  {
  }

  /** The table of epochs carries no count, but its rows are 88 bytes and its tail is 1 or
      201, and 88 does not divide 200. */
  lemma TablesSplit(js: seq<u64>, m: map<u64, Commitment>, a: Option<CheckpointBinding>,
                    ks: seq<u64>, n: map<u64, Commitment>, b: Option<CheckpointBinding>)
    requires (forall e :: e in js ==> e in m) && (forall e :: e in ks ==> e in n)
    requires Rows(js, m) + Tail(a) == Rows(ks, n) + Tail(b)
    ensures |js| == |ks| && Rows(js, m) == Rows(ks, n) && Tail(a) == Tail(b)
  {
    assert |Rows(js, m) + Tail(a)| == |Rows(ks, n) + Tail(b)|;
    SizesSplit(|js|, |ks|, |Tail(a)|, |Tail(b)|);
    SplitEqual(Rows(js, m), Tail(a), Rows(ks, n), Tail(b));
  }

  /** The signed bytes determine the whole receipt but its signature. */
  lemma MessageDeterminesReceipt(a: Receipt, b: Receipt)
    requires Message(a) == Message(b)
    ensures a.(adminSig := b.adminSig) == b
  {
    var ka, kb := SortedKeys(a.commitments.Keys), SortedKeys(b.commitments.Keys);
    SplitEqual(FixedPart(a), Rows(ka, a.commitments) + Tail(a.checkpoint),
               FixedPart(b), Rows(kb, b.commitments) + Tail(b.checkpoint));
    FixedPartInjective(a, b);
    TablesSplit(ka, a.commitments, a.checkpoint, kb, b.commitments, b.checkpoint);
    TailInjective(a.checkpoint, b.checkpoint);
    RowsInjective(ka, a.commitments, kb, b.commitments);
    SameTable(ka, a.commitments, b.commitments);
  }

  lemma SameTable(keys: seq<u64>, m: map<u64, Commitment>, n: map<u64, Commitment>)
    requires (forall e :: e in keys <==> e in m) && (forall e :: e in keys <==> e in n)
    requires forall e :: e in keys ==> m[e] == n[e]
    ensures m == n
  {
  }

  // ---- Soundness -----------------------------------------------------------------------------

  lemma LeafInputInjective(hash: HashFn, g: RefHead, h: RefHead)
    requires LeafInput(hash, g) == LeafInput(hash, h)
    ensures g.seqNo == h.seqNo && hash(g) == hash(h)
  {
    var tag := DomainLabel("consol-leaf");
    var g1, h1 := g.bundleRoot + LE64(g.epoch), h.bundleRoot + LE64(h.epoch);
    SplitEqual(tag, LE64(g.seqNo) + (hash(g) + g1), tag, LE64(h.seqNo) + (hash(h) + h1));
    SplitEqual(LE64(g.seqNo), hash(g) + g1, LE64(h.seqNo), hash(h) + h1);
    LE64Injective(g.seqNo, h.seqNo);
    SplitEqual(hash(g), g1, hash(h), h1);
  }

  lemma NodeInputInjective(p: (Digest, Digest), q: (Digest, Digest))
    requires NodeInput(p) == NodeInput(q)
    ensures p == q
  {
    var tag := DomainLabel("consol-node");
    SplitEqual(tag, p.0 + p.1, tag, q.0 + q.1);
    SplitEqual(p.0, p.1, q.0, q.1);
  }

  function NodeInputs(pairs: set<(Digest, Digest)>): set<Bytes> {
    set p | p in pairs :: NodeInput(p)
  }

  function LeafInputs(hash: HashFn, heads: set<RefHead>): set<Bytes> {
    set h | h in heads :: LeafInput(hash, h)
  }

  /** The pairs hashed by the tree over `heads` and by the climb of `h` along `path`. */
  function HashedPairs(k: Kit, heads: seq<RefHead>, h: RefHead, path: Path): set<(Digest, Digest)> {
    TreePairs(Node(k), Leaves(k, heads)) + PathPairs(Node(k), Leaf(k, h), path.steps)
  }

  /** Every string hashed on either side of the comparison. */
  function HashedStrings(k: Kit, heads: seq<RefHead>, h: RefHead, path: Path): set<Bytes> {
    NodeInputs(HashedPairs(k, heads, h, path)) + LeafInputs(k.hash, SetOf(heads) + {h})
  }

  lemma PairsDoNotCollide(k: Kit, pairs: set<(Digest, Digest)>, strings: set<Bytes>)
    requires InjectiveOn(k.sha, strings) && NodeInputs(pairs) <= strings
    ensures PairsInjective(Node(k), pairs)
  {
    forall p, q | p in pairs && q in pairs && NodeOf(Node(k), p) == NodeOf(Node(k), q)
      ensures p == q
    {
      assert NodeInput((p.0, p.1)) in NodeInputs(pairs) && NodeInput((q.0, q.1)) in NodeInputs(pairs);
      NodeInputInjective(p, q);
    }
  }

  /** Leaves and nodes hash strings of different lengths. */
  lemma LeafIsNoNode(k: Kit, h: RefHead, pairs: set<(Digest, Digest)>, strings: set<Bytes>)
    requires InjectiveOn(k.sha, strings) && NodeInputs(pairs) <= strings && LeafInput(k.hash, h) in strings
    ensures !IsNode(Node(k), pairs, Leaf(k, h))
  {
    forall p | p in pairs
      ensures NodeOf(Node(k), p) != Leaf(k, h)
    {
      assert NodeInput((p.0, p.1)) in NodeInputs(pairs);
      assert |NodeInput((p.0, p.1))| != |LeafInput(k.hash, h)|;
    }
  }

  /** A head that climbs to the root of `heads` is one of them. */
  lemma RootPinsHead(k: Kit, heads: seq<RefHead>, h: RefHead, path: Path)
    requires heads != []
    requires Climb(Node(k), Leaf(k, h), path.steps) == Root(Node(k), EmptyRoot(k), Leaves(k, heads))
    requires InjectiveOn(k.sha, HashedStrings(k, heads, h, path))
    ensures Leaf(k, h) in Leaves(k, heads)
  {
    var strings, leaves := HashedStrings(k, heads, h, path), Leaves(k, heads);
    var tree, climbed := TreePairs(Node(k), leaves), PathPairs(Node(k), Leaf(k, h), path.steps);
    var inputs := LeafInputs(k.hash, SetOf(heads) + {h});
    assert NodeInputs(tree) <= strings && NodeInputs(climbed) <= strings;
    PairsDoNotCollide(k, tree + climbed, strings);
    PathStartsInTree(Node(k), EmptyRoot(k), leaves, Leaf(k, h), path.steps);
    assert LeafInput(k.hash, h) in inputs;
    LeafIsNoNode(k, h, tree, strings);
    if exists v :: v in leaves && IsNode(Node(k), climbed, v) {
      var v :| v in leaves && IsNode(Node(k), climbed, v);
      var i :| 0 <= i < |leaves| && leaves[i] == v;
      assert heads[i] in SetOf(heads) + {h} && LeafInput(k.hash, heads[i]) in inputs;
      LeafIsNoNode(k, heads[i], climbed, strings);
    }
  }

  lemma LeafAt(k: Kit, heads: seq<RefHead>, leaf: Digest) returns (i: nat)
    requires leaf in Leaves(k, heads)
    ensures i < |heads| && Leaf(k, heads[i]) == leaf
  {
    i :| 0 <= i < |heads| && Leaves(k, heads)[i] == leaf;
  }

  /** Nothing that these heads and this path hash collides. */
  ghost predicate NothingCollides(k: Kit, heads: seq<RefHead>, h: RefHead, path: Path) {
    InjectiveOn(k.sha, HashedStrings(k, heads, h, path)) && NoCollision(k.hash, SetOf(heads) + {h})
  }

  lemma IncludedIsCommitted(k: Kit, heads: seq<RefHead>, h: RefHead, path: Path)
    requires heads != []
    requires Climb(Node(k), Leaf(k, h), path.steps) == Root(Node(k), EmptyRoot(k), Leaves(k, heads))
    ensures NothingCollides(k, heads, h, path) ==> h in heads
  {
    if NothingCollides(k, heads, h, path) {
      RootPinsHead(k, heads, h, path);
      var i := LeafAt(k, heads, Leaf(k, h));
      SameLeafSameHead(k, heads, h, path, i);
    }
  }

  lemma PlaceOf(heads: seq<RefHead>, h: RefHead, i: nat)
    requires Consecutive(heads) && h in heads && h.seqNo == heads[0].seqNo + i
    ensures i < |heads| && heads[i] == h
  {
    var j :| 0 <= j < |heads| && heads[j] == h;
    assert heads[j].seqNo == heads[0].seqNo + j;
  }

  /** Window soundness. When the receipt's root is the root of `heads` and the receipt is
      accepted, each in-span head that the reader holds is the head of its own sequence
      number, whatever the proof's length and directions, unless two hashed strings or
      two heads collide. */
  lemma AcceptedHeadsAreCommitted(k: Kit, r: Receipt, vks: seq<Bytes>, window: seq<RefHead>, proofs: map<u64, Path>,
                                  heads: seq<RefHead>, h: RefHead, i: nat)
    requires AcceptsWindow(k, r, vks, window, proofs)
    requires heads != [] && Consecutive(heads) && heads[0].seqNo == r.fromSeq
    requires r.logicalRoot == Root(Node(k), EmptyRoot(k), Leaves(k, heads))
    requires h in window && h.seqNo == r.fromSeq + i <= r.toSeq
    requires h.seqNo in proofs ==> NothingCollides(k, heads, h, proofs[h.seqNo])
    ensures i < |heads| && heads[i] == h
  {
    assert h in InSpan(r, window);
    IncludedIsCommitted(k, heads, h, proofs[h.seqNo]);
    PlaceOf(heads, h, i);
  }

  lemma SameLeafSameHead(k: Kit, heads: seq<RefHead>, h: RefHead, path: Path, i: nat)
    requires i < |heads| && Leaf(k, heads[i]) == Leaf(k, h)
    requires InjectiveOn(k.sha, HashedStrings(k, heads, h, path))
    requires NoCollision(k.hash, SetOf(heads) + {h})
    ensures heads[i] == h
  {
    var all := SetOf(heads) + {h};
    assert heads[i] in all && h in all;
    assert LeafInput(k.hash, heads[i]) in LeafInputs(k.hash, all) && LeafInput(k.hash, h) in LeafInputs(k.hash, all);
    LeafInputInjective(k.hash, heads[i], h);
  }

  // ---- Completeness ----------------------------------------------------------------------------

  lemma {:induction false} EpochHeadsOfSum(a: seq<RefHead>, b: seq<RefHead>, e: u64)
    ensures EpochHeads(a + b, e) == EpochHeads(a, e) + EpochHeads(b, e)
  {
    if a == [] {
      assert a + b == b;
    } else {
      assert (a + b)[1..] == a[1..] + b;
      EpochHeadsOfSum(a[1..], b, e);
    }
  }

  /** Numbers rise along a consecutive run, and so along each of its epochs. */
  ghost predicate Rising(heads: seq<RefHead>) {
    forall i, j :: 0 <= i < j < |heads| ==> heads[i].seqNo < heads[j].seqNo
  }

  lemma {:induction false} EpochHeadsRise(heads: seq<RefHead>, e: u64)
    requires Rising(heads)
    ensures Rising(EpochHeads(heads, e))
  {
    if heads != [] {
      EpochHeadsRise(heads[1..], e);
      var rest := EpochHeads(heads[1..], e);
      forall i | 0 <= i < |rest|
        ensures heads[0].seqNo < rest[i].seqNo
      {
        assert rest[i] in heads[1..];
      }
    }
  }

  /** The middle of a rising sequence: its span lies inside, and equal spans mean that
      nothing was before or after it. */
  lemma MiddleSpan(p: seq<RefHead>, w: seq<RefHead>, s: seq<RefHead>)
    requires Rising(p + w + s) && w != []
    ensures var all := p + w + s;
            && all[0].seqNo <= w[0].seqNo && w[|w| - 1].seqNo <= all[|all| - 1].seqNo
            && (all[0].seqNo == w[0].seqNo && w[|w| - 1].seqNo == all[|all| - 1].seqNo ==> all == w)
  {
    var all := p + w + s;
    assert w[0] == all[|p|] && w[|w| - 1] == all[|p| + |w| - 1];
    if p == [] && s == [] { assert all == w; }
  }

  lemma EpochParts(heads: seq<RefHead>, a: nat, b: nat, e: u64)
    requires a <= b <= |heads|
    ensures EpochHeads(heads, e) == EpochHeads(heads[..a], e) + EpochHeads(heads[a..b], e) + EpochHeads(heads[b..], e)
  {
    var pre, mid, post := heads[..a], heads[a..b], heads[b..];
    assert heads == pre + mid + post;
    EpochHeadsOfSum(pre, mid, e);
    EpochHeadsOfSum(pre + mid, post, e);
  }

  lemma PartIsCovered(k: Kit, r: Receipt, e: u64, p: seq<RefHead>, w: seq<RefHead>, s: seq<RefHead>)
    requires Rising(p + w + s) && w != []
    requires e in r.commitments && r.commitments[e] == CommitTo(k, e, p + w + s)
    ensures EpochCovered(r, e, CommitTo(k, e, w))
  {
    MiddleSpan(p, w, s);
  }

  /** The commitments of a run cover those of every slice of it, epochs interleaved or not. */
  lemma SliceIsCovered(k: Kit, r: Receipt, heads: seq<RefHead>, a: nat, b: nat, e: u64)
    requires r.commitments == EpochCommitments(k, heads) && Rising(heads) && a <= b <= |heads|
    requires e in EpochsOf(heads[a..b])
    ensures EpochCovered(r, e, CommitmentAt(k, heads[a..b], e))
  {
    var mid := heads[a..b];
    var h :| h in mid && h.epoch == e;
    assert h in EpochHeads(mid, e) && h in heads && e in EpochsOf(heads);
    EpochParts(heads, a, b, e);
    EpochHeadsRise(heads, e);
    PartIsCovered(k, r, e, EpochHeads(heads[..a], e), EpochHeads(mid, e), EpochHeads(heads[b..], e));
  }

  lemma {:induction false} SpanOfSum(r: Receipt, a: seq<RefHead>, b: seq<RefHead>)
    ensures InSpan(r, a + b) == InSpan(r, a) + InSpan(r, b)
  {
    if a == [] {
      assert a + b == b;
    } else {
      assert (a + b)[1..] == a[1..] + b;
      SpanOfSum(r, a[1..], b);
    }
  }

  lemma {:induction false} SpanAll(r: Receipt, heads: seq<RefHead>, inside: bool)
    requires forall h :: h in heads ==> (r.fromSeq <= h.seqNo <= r.toSeq) == inside
    ensures InSpan(r, heads) == if inside then heads else []
  {
    if heads != [] { SpanAll(r, heads[1..], inside); }
  }

  lemma SpanOfParts(r: Receipt, before: seq<RefHead>, inside: seq<RefHead>, after: seq<RefHead>)
    requires forall h :: h in before || h in after ==> !(r.fromSeq <= h.seqNo <= r.toSeq)
    requires forall h :: h in inside ==> r.fromSeq <= h.seqNo <= r.toSeq
    ensures InSpan(r, before + inside + after) == inside
  {
    SpanOfSum(r, before + inside, after);
    SpanOfSum(r, before, inside);
    SpanAll(r, before, false);
    SpanAll(r, inside, true);
    SpanAll(r, after, false);
  }

  lemma NumbersOfSlice(log: seq<RefHead>, a: nat, b: nat)
    requires Consecutive(log) && a <= b <= |log|
    ensures forall h :: h in log[a..b] ==> log[0].seqNo + a <= h.seqNo < log[0].seqNo + b
  {
    forall h | h in log[a..b]
      ensures log[0].seqNo + a <= h.seqNo < log[0].seqNo + b
    {
      var i :| 0 <= i < b - a && log[a..b][i] == h;
      assert log[a + i] == h;
    }
  }

  /** The in-span part of a contiguous window of the log that the span was cut from. */
  lemma SpanOfWindow(r: Receipt, log: seq<RefHead>, m: nat, n: nat, p: nat, q: nat)
    requires Consecutive(log) && m < n <= |log| && p <= q <= |log|
    requires r.fromSeq == log[m].seqNo && r.toSeq == log[n - 1].seqNo && Max(p, m) < Min(q, n)
    ensures InSpan(r, log[p..q]) == log[Max(p, m)..Min(q, n)]
  {
    var lo, hi := Max(p, m), Min(q, n);
    assert log[p..q] == log[p..lo] + log[lo..hi] + log[hi..q];
    NumbersOfSlice(log, p, lo);
    NumbersOfSlice(log, lo, hi);
    NumbersOfSlice(log, hi, q);
    SpanOfParts(r, log[p..lo], log[lo..hi], log[hi..q]);
  }

  /** `r` is what planning the consolidation of `heads` produces, compacted or not, once signed. */
  ghost predicate HonestReceipt(k: Kit, r: Receipt, vks: seq<Bytes>, heads: seq<RefHead>) {
    && heads != [] && Consecutive(heads) && Signed(k, r, vks)
    && r.(checkpoint := None, adminSig := []) == PlanFor(k, r.repoId, r.epoch, heads).receipt
    && (r.checkpoint.Some? ==>
          var anchor := heads[|heads| - 1];
          r.checkpoint.value.atSeq == anchor.seqNo && r.checkpoint.value.anchorHead == k.hash(anchor))
  }

  /** The proof a planner hands out for the head at `i`. */
  predicate PlannedProof(k: Kit, heads: seq<RefHead>, proofs: map<u64, Path>, i: nat)
    requires i < |heads|
  {
    heads[i].seqNo in proofs && proofs[heads[i].seqNo] == Path(i, Steps(Node(k), Leaves(k, heads), i))
  }

  ghost predicate PlannedProofs(k: Kit, heads: seq<RefHead>, a: nat, b: nat, proofs: map<u64, Path>)
    requires a <= b <= |heads|
  {
    forall i :: a <= i < b ==> PlannedProof(k, heads, proofs, i)
  }

  lemma HeadIsIncluded(k: Kit, r: Receipt, heads: seq<RefHead>, i: nat, proofs: map<u64, Path>)
    requires i < |heads| && heads[i].seqNo == r.fromSeq + i
    requires r.logicalRoot == Root(Node(k), EmptyRoot(k), Leaves(k, heads))
    requires PlannedProof(k, heads, proofs, i)
    ensures Included(k, r, proofs, heads[i])
  {
    PathsReachRoot(Node(k), EmptyRoot(k), Leaves(k, heads), i);
  }

  lemma SliceIsIncluded(k: Kit, r: Receipt, heads: seq<RefHead>, a: nat, b: nat, proofs: map<u64, Path>)
    requires Consecutive(heads) && heads != [] && r.fromSeq == heads[0].seqNo && a <= b <= |heads|
    requires r.logicalRoot == Root(Node(k), EmptyRoot(k), Leaves(k, heads))
    requires PlannedProofs(k, heads, a, b, proofs)
    ensures AllIncluded(k, r, proofs, heads[a..b])
  {
    forall i | a <= i < b
      ensures Included(k, r, proofs, heads[i])
    {
      HeadIsIncluded(k, r, heads, i, proofs);
    }
    AllOfSlice(k, r, heads, a, b, proofs);
  }

  lemma AllOfSlice(k: Kit, r: Receipt, heads: seq<RefHead>, a: nat, b: nat, proofs: map<u64, Path>)
    requires a <= b <= |heads| && forall i :: a <= i < b ==> Included(k, r, proofs, heads[i])
    ensures AllIncluded(k, r, proofs, heads[a..b])
  {
    forall h | h in heads[a..b]
      ensures Included(k, r, proofs, h)
    {
      var j :| 0 <= j < b - a && heads[a..b][j] == h;
      assert heads[a + j] == h;
    }
  }

  lemma SliceFitsCheckpoint(k: Kit, r: Receipt, heads: seq<RefHead>, a: nat, b: nat, cp: CheckpointBinding)
    requires heads != [] && Consecutive(heads) && a <= b <= |heads|
    requires r.fromSeq == heads[0].seqNo && r.toSeq == heads[|heads| - 1].seqNo && r.checkpoint == Some(cp)
    requires cp.atSeq == heads[|heads| - 1].seqNo && cp.anchorHead == k.hash(heads[|heads| - 1])
    ensures CheckpointFits(k, r, heads[a..b])
  {
    var span := heads[a..b];
    var anchor := FindSeq(span, cp.atSeq);
    if anchor.Some? {
      var j :| 0 <= j < |span| && span[j] == anchor.value;
      assert heads[a + j] == anchor.value && heads[a + j].seqNo == heads[0].seqNo + (a + j);
      assert a + j == |heads| - 1;
    }
  }

  lemma SliceIsCoveredThroughout(k: Kit, r: Receipt, vks: seq<Bytes>, heads: seq<RefHead>, a: nat, b: nat)
    requires HonestReceipt(k, r, vks, heads) && a <= b <= |heads|
    ensures EpochsCovered(r, EpochCommitments(k, heads[a..b]))
  {
    var mine := EpochCommitments(k, heads[a..b]);
    forall e | e in mine
      ensures EpochCovered(r, e, mine[e])
    {
      SliceIsCovered(k, r, heads, a, b, e);
    }
  }

  /** All that a window asks of its in-span part but the signature. */
  lemma SliceIsAccepted(k: Kit, r: Receipt, vks: seq<Bytes>, heads: seq<RefHead>, a: nat, b: nat,
                        proofs: map<u64, Path>, span: seq<RefHead>)
    requires HonestReceipt(k, r, vks, heads) && a < b <= |heads|
    requires span == heads[a..b] && PlannedProofs(k, heads, a, b, proofs)
    ensures span != [] && AllIncluded(k, r, proofs, span)
    ensures EpochsCovered(r, EpochCommitments(k, span)) && CheckpointFits(k, r, span)
  {
    SliceIsIncluded(k, r, heads, a, b, proofs);
    if r.checkpoint.Some? { SliceFitsCheckpoint(k, r, heads, a, b, r.checkpoint.value); }
    SliceIsCoveredThroughout(k, r, vks, heads, a, b);
  }

  lemma SliceOfSlice(log: seq<RefHead>, m: nat, n: nat, lo: nat, hi: nat)
    requires m <= lo <= hi <= n <= |log|
    ensures log[lo..hi] == log[m..n][lo - m..hi - m]
  {
    forall i | 0 <= i < hi - lo
      ensures log[m..n][lo - m..hi - m][i] == log[lo..hi][i]
    {
      assert log[m..n][lo - m + i] == log[lo + i];
    }
  }

  lemma SpanInHeads(r: Receipt, log: seq<RefHead>, m: nat, n: nat, p: nat, q: nat, lo: nat, hi: nat)
    requires Consecutive(log) && m < n <= |log| && p <= q <= |log| && lo == Max(p, m) < hi == Min(q, n)
    requires r.fromSeq == log[m].seqNo && r.toSeq == log[n - 1].seqNo
    ensures InSpan(r, log[p..q]) == log[m..n][lo - m..hi - m]
  {
    SpanOfWindow(r, log, m, n, p, q);
    SliceOfSlice(log, m, n, lo, hi);
  }

  lemma HonestSpan(k: Kit, r: Receipt, vks: seq<Bytes>, heads: seq<RefHead>)
    requires HonestReceipt(k, r, vks, heads)
    ensures r.fromSeq == heads[0].seqNo && r.toSeq == heads[|heads| - 1].seqNo
  {
  }

  lemma EndsOfSlice(log: seq<RefHead>, m: nat, n: nat)
    requires m < n <= |log|
    ensures log[m..n][0] == log[m] && log[m..n][n - m - 1] == log[n - 1]
  {
  }

  /** Completeness. A signed receipt planned over the slice `heads` of the log, with or
      without a checkpoint, is accepted by every reader whose contiguous window meets the
      slice, even when epochs interleave. */
  lemma HonestReceiptAccepted(k: Kit, r: Receipt, vks: seq<Bytes>, log: seq<RefHead>, m: nat, n: nat,
                              heads: seq<RefHead>, p: nat, q: nat, lo: nat, hi: nat, proofs: map<u64, Path>)
    requires Consecutive(log) && m < n <= |log| && heads == log[m..n] && HonestReceipt(k, r, vks, heads)
    requires p <= q <= |log| && lo == Max(p, m) < hi == Min(q, n)
    requires PlannedProofs(k, heads, lo - m, hi - m, proofs)
    ensures AcceptsWindow(k, r, vks, log[p..q], proofs)
  {
    WindowMeetsSpan(k, r, vks, log, m, n, heads, p, q, lo, hi);
    SliceIsAccepted(k, r, vks, heads, lo - m, hi - m, proofs, InSpan(r, log[p..q]));
  }

  lemma WindowMeetsSpan(k: Kit, r: Receipt, vks: seq<Bytes>, log: seq<RefHead>, m: nat, n: nat,
                        heads: seq<RefHead>, p: nat, q: nat, lo: nat, hi: nat)
    requires Consecutive(log) && m < n <= |log| && heads == log[m..n] && HonestReceipt(k, r, vks, heads)
    requires p <= q <= |log| && lo == Max(p, m) < hi == Min(q, n)
    ensures InSpan(r, log[p..q]) == heads[lo - m..hi - m]
  {
    HonestSpan(k, r, vks, heads);
    EndsOfSlice(log, m, n);
    SpanInHeads(r, log, m, n, p, q, lo, hi);
  }

  // ---- Authorization and anchors -------------------------------------------------------------------

  /** A bundle of signatures that all verify authorizes, whoever made them: one admin may
      fill a quorum alone. */
  lemma QuorumAuthorizes(verify: Quorum.VerifyFn, vks: seq<Bytes>, msg: Bytes, m: byte, sigs: seq<Opaque>)
    requires m as nat <= |sigs| <= 255
    requires forall s :: s in sigs ==> AnyKey(verify, vks, msg, s)
    ensures Authorized(verify, vks, msg, Quorum.EncodeQuorum(m, sigs))
  {
    Quorum.DecodeInvertsEncode(m, sigs);
    AllValid(verify, vks, msg, sigs);
  }

  lemma {:induction false} AllValid(verify: Quorum.VerifyFn, vks: seq<Bytes>, msg: Bytes, sigs: seq<Opaque>)
    requires forall s :: s in sigs ==> AnyKey(verify, vks, msg, s)
    ensures ValidSignatures(verify, vks, msg, sigs) == |sigs|
  {
    if sigs != [] { AllValid(verify, vks, msg, sigs[..|sigs| - 1]); }
  }

  lemma RefsInputInjective(repo: Bytes32, s: u64, a: Bytes, b: Bytes)
    requires |a| < TWO_TO_64 && |b| < TWO_TO_64 && RefsInput(repo, s, a) == RefsInput(repo, s, b)
    ensures a == b
  {
    var tag := DomainLabel("consol-refs");
    SplitEqual(tag, repo + (LE64(s) + (LE64(|a|) + a)), tag, repo + (LE64(s) + (LE64(|b|) + b)));
    SplitEqual(repo, LE64(s) + (LE64(|a|) + a), repo, LE64(s) + (LE64(|b|) + b));
    SplitEqual(LE64(s), LE64(|a|) + a, LE64(s), LE64(|b|) + b);
    SplitEqual(LE64(|a|), a, LE64(|b|), b);
  }

  /** A compaction receipt is accepted with its own anchor and refs, and with nothing else
      unless two heads or two hashed ref maps collide. */
  lemma AnchorPinned(k: Kit, r: Receipt, vks: seq<Bytes>, heads: seq<RefHead>, refs: Bytes, bundleRoot: Digest,
                     anchor: RefHead, shown: Bytes)
    requires |refs| < TWO_TO_64 && |shown| < TWO_TO_64
    requires HonestReceipt(k, r, vks, heads)
    requires var last := heads[|heads| - 1];
             r.checkpoint == Some(CheckpointFor(k, r.repoId, last, refs, bundleRoot)) && last.repoId == r.repoId
    requires NoCollision(k.hash, {heads[|heads| - 1], anchor})
    requires InjectiveOn(k.sha, {RefsInput(r.repoId, heads[|heads| - 1].seqNo, refs),
                                 RefsInput(r.repoId, heads[|heads| - 1].seqNo, shown)})
    ensures AcceptsAnchor(k, r, vks, anchor, shown) <==> anchor == heads[|heads| - 1] && shown == refs
  {
    var last := heads[|heads| - 1];
    assert last in {last, anchor} && anchor in {last, anchor};
    if AcceptsAnchor(k, r, vks, anchor, shown) {
      RefsInputInjective(r.repoId, last.seqNo, refs, shown);
    }
  }
}
