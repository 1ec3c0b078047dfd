/** What an accepted run of heads gives its reader, head by head. */
module AcceptedRuns {
  import opened Bytes
  import opened Primitives
  import opened RefHeads
  import opened HeadFormats
  import opened FetchVerify

  // ---- The signed string -------------------------------------------------------------------------

  /** Offset of the bundle root in the signed string. */
  function RootAt(h: RefHead): nat { 18 + 32 + 8 + |h.encRefs| }

  /** Offset of the predecessor hash in the signed string. */
  function PrevAt(h: RefHead): nat { RootAt(h) + 64 + |h.dekWrap| }

  lemma LeafMessageLayout(h: RefHead)
    ensures var m, r, p := LeafMessage(h), RootAt(h), PrevAt(h);
            && |m| == p + 64 + 8 + |h.epochTag| + 1
            && m[..18] == Ascii("safehub-v1:refhead") && m[18..50] == h.repoId && m[50..58] == LE64(h.seqNo)
            && m[58..r] == h.encRefs && m[r..r + 64] == h.bundleRoot && m[r + 64..p] == h.dekWrap
            && m[p..p + 64] == h.prev && m[p + 64..p + 72] == LE64(h.epoch)
            && m[p + 72..|m| - 1] == h.epochTag && m[|m| - 1] == if h.nonFf then 1 else 0
  {
    LeafFront(h);
    LeafBack(h);
    assert "safehub-v1:" + "refhead" == "safehub-v1:refhead";
  }

  function LeafHalf(h: RefHead): (b: Bytes)
    ensures |b| == PrevAt(h)
  {
    DomainLabel("refhead") + h.repoId + LE64(h.seqNo) + h.encRefs + h.bundleRoot + h.dekWrap
  }

  lemma LeafFront(h: RefHead)
    ensures var m, r, p := LeafHalf(h), RootAt(h), PrevAt(h);
            && m <= LeafMessage(h) && m[..18] == DomainLabel("refhead") && m[18..50] == h.repoId
            && m[50..58] == LE64(h.seqNo) && m[58..r] == h.encRefs && m[r..r + 64] == h.bundleRoot
            && m[r + 64..p] == h.dekWrap
  {
    assert LeafMessage(h) == LeafHalf(h) + (h.prev + LE64(h.epoch) + h.epochTag + [Flag(h.nonFf)]);
  }

  lemma LeafBack(h: RefHead)
    ensures var m, p := LeafMessage(h), PrevAt(h);
            && |m| == p + 64 + 8 + |h.epochTag| + 1 && m[p..p + 64] == h.prev && m[p + 64..p + 72] == LE64(h.epoch)
            && m[p + 72..|m| - 1] == h.epochTag && m[|m| - 1] == Flag(h.nonFf)
  {
    var back := h.prev + LE64(h.epoch) + h.epochTag + [Flag(h.nonFf)];
    assert LeafMessage(h) == LeafHalf(h) + back;
    assert back[..64] == h.prev && back[64..72] == LE64(h.epoch) && back[72..|back| - 1] == h.epochTag;
  }

  /** The signed string carries no lengths. Given the lengths of the encrypted refs and of the
      wrapped key it determines every field but the two signatures. */
  lemma SignedFieldsArePinned(g: RefHead, h: RefHead)
    requires LeafMessage(g) == LeafMessage(h) && |g.encRefs| == |h.encRefs| && |g.dekWrap| == |h.dekWrap|
    ensures g.(pusherSig := h.pusherSig, adminCosig := h.adminCosig) == h
  {
    LeafMessageLayout(g);
    LeafMessageLayout(h);
    LE64Injective(g.seqNo, h.seqNo);
    LE64Injective(g.epoch, h.epoch);
  }

  // ---- Epoch tags ----------------------------------------------------------------------------------

  /** The string that is authenticated under the MAC key of an epoch. */
  function TagInput(h: RefHead): (b: Bytes)
    ensures |b| == 100
  {
    Ascii("safehub-v1:epoch-tag") + (LE64(h.epoch) + (h.bundleRoot + LE64(h.seqNo)))
  }

  lemma TagInputInjective(g: RefHead, h: RefHead)
    requires TagInput(g) == TagInput(h)
    ensures g.epoch == h.epoch && g.bundleRoot == h.bundleRoot && g.seqNo == h.seqNo
  {
    var tag := Ascii("safehub-v1:epoch-tag");
    SplitEqual(tag, LE64(g.epoch) + (g.bundleRoot + LE64(g.seqNo)),
               tag, LE64(h.epoch) + (h.bundleRoot + LE64(h.seqNo)));
    SplitEqual(LE64(g.epoch), g.bundleRoot + LE64(g.seqNo), LE64(h.epoch), h.bundleRoot + LE64(h.seqNo));
    SplitEqual(g.bundleRoot, LE64(g.seqNo), h.bundleRoot, LE64(h.seqNo));
    LE64Injective(g.epoch, h.epoch);
    LE64Injective(g.seqNo, h.seqNo);
  }

  lemma TagIsCutMac(suite: Suite, mk: Bytes, h: RefHead)
    ensures EpochTag(suite, mk, h.epoch, h.bundleRoot, h.seqNo) == suite.hmac(mk, TagInput(h))[..32]
  {
    var tag := Ascii("safehub-v1:epoch-tag");
    assert "safehub-v1:" + "epoch-tag" == "safehub-v1:epoch-tag";
    assert tag + LE64(h.epoch) + h.bundleRoot + LE64(h.seqNo) == TagInput(h);
  }

  // ---- Acceptance, check by check ---------------------------------------------------------------

  /** Each head names the one before it. Numbers go up by one, except from the first head to the
      second when the reader has no anchor. */
  ghost predicate LinksUp(hash: HashFn, heads: seq<RefHead>, anchor: Option<Digest>) {
    && (anchor.Some? && heads != [] ==> heads[0].prev == anchor.value)
    && (forall i, j :: 0 <= i < j < |heads| && j == i + 1 ==> heads[j].prev == hash(heads[i]))
    && (forall i, j :: 0 <= i < j < |heads| && j == i + 1 && (i > 0 || anchor.Some?) ==>
          heads[j].seqNo == heads[i].seqNo + 1)
  }

  /** The tag is the cut MAC of epoch, root and number when the member holds the epoch's MAC key. */
  ghost predicate TagIsRight(c: Checks, m: Member, h: RefHead) {
    && (m.macAt(h.epoch).Some? ==> h.epochTag == c.suite.hmac(m.macAt(h.epoch).value, TagInput(h))[..32])
    && (m.macAt(h.epoch).None? ==> h.epoch <= m.epoch)
  }

  ghost predicate SignatureIsRight(c: Checks, m: Member, h: RefHead) {
    |m.leafKeys| > 0 ==>
      |h.pusherSig| > 0 && exists i :: 0 <= i < |m.leafKeys| && c.verify(m.leafKeys[i], LeafMessage(h), h.pusherSig)
  }

  /** From head to head, as far as the run goes. */
  ghost predicate Steps(hash: HashFn, heads: seq<RefHead>) {
    forall i, j :: 0 <= i < j < |heads| && j == i + 1 ==>
      heads[j].prev == hash(heads[i]) && heads[j].seqNo == heads[i].seqNo + 1
  }

  lemma DescendsSteps(hash: HashFn, heads: seq<RefHead>, anchor: Digest)
    requires Descends(hash, heads, anchor)
    ensures Steps(hash, heads) && (heads != [] ==> heads[0].prev == anchor)
  {
    if heads != [] { assert heads[0].prev == LinkHash(hash, heads, anchor, 0); }
    forall i, j | 0 <= i < j < |heads| && j == i + 1
      ensures heads[j].prev == hash(heads[i]) && heads[j].seqNo == heads[i].seqNo + 1
    {
      assert heads[j].prev == LinkHash(hash, heads, anchor, j);
      assert heads[j].seqNo == heads[0].seqNo + j;
    }
  }

  lemma {:induction false} StepsCount(hash: HashFn, heads: seq<RefHead>, i: nat)
    requires Steps(hash, heads) && i < |heads|
    ensures heads[i].seqNo == heads[0].seqNo + i
  {
    if i > 0 {
      StepsCount(hash, heads, i - 1);
      assert heads[i].seqNo == heads[i - 1].seqNo + 1;
    }
  }

  lemma StepsDescend(hash: HashFn, heads: seq<RefHead>, anchor: Digest)
    requires Steps(hash, heads) && (heads != [] ==> heads[0].prev == anchor)
    ensures Descends(hash, heads, anchor)
  {
    forall i {:trigger LinkHash(hash, heads, anchor, i)} | 0 <= i < |heads|
      ensures heads[i].prev == LinkHash(hash, heads, anchor, i)
    {
      if i > 0 { assert heads[i].prev == hash(heads[i - 1]); }
    }
    forall i | 0 < i < |heads|
      ensures heads[i].seqNo == heads[0].seqNo + i
    {
      StepsCount(hash, heads, i);
    }
  }

  lemma LinksUpFrom(hash: HashFn, heads: seq<RefHead>, anchor: Digest)
    ensures LinksUp(hash, heads, Some(anchor)) <==> Descends(hash, heads, anchor)
  {
    if LinksUp(hash, heads, Some(anchor)) { StepsDescend(hash, heads, anchor); }
    if Descends(hash, heads, anchor) { DescendsSteps(hash, heads, anchor); }
  }

  lemma FirstLinks(hash: HashFn, heads: seq<RefHead>)
    requires heads != []
    ensures LinksUp(hash, heads, None) <==>
            Steps(hash, heads[1..]) && (|heads| > 1 ==> heads[1].prev == hash(heads[0]))
  {
    var rest := heads[1..];
    if LinksUp(hash, heads, None) {
      forall i, j | 0 <= i < j < |rest| && j == i + 1
        ensures rest[j].prev == hash(rest[i]) && rest[j].seqNo == rest[i].seqNo + 1
      {
        assert rest[i] == heads[i + 1] && rest[j] == heads[j + 1];
      }
    }
    if Steps(hash, rest) && (|heads| > 1 ==> heads[1].prev == hash(heads[0])) {
      forall i, j | 0 <= i < j < |heads| && j == i + 1
        ensures heads[j].prev == hash(heads[i]) && (i > 0 ==> heads[j].seqNo == heads[i].seqNo + 1)
      {
        if i > 0 { assert heads[i] == rest[i - 1] && heads[j] == rest[j - 1]; }
      }
    }
  }

  lemma LinksUpIff(hash: HashFn, heads: seq<RefHead>, anchor: Option<Digest>)
    ensures LinksUp(hash, heads, anchor) <==> ChainAccepted(hash, heads, anchor)
  {
    match anchor
    case Some(a) => LinksUpFrom(hash, heads, a);
    case None =>
      if heads != [] {
        var rest, first := heads[1..], hash(heads[0]);
        FirstLinks(hash, heads);
        if Descends(hash, rest, first) { DescendsSteps(hash, rest, first); }
        if LinksUp(hash, heads, None) { StepsDescend(hash, rest, first); }
      }
  }

  /** A run is accepted if and only if it links up from the anchor, each tag that the member can
      recompute is right, no head without a retained key is of a later epoch, and, when leaf keys
      are given, each head carries a signature of its signed string under one of them. */
  lemma AcceptedIff(c: Checks, m: Member, heads: seq<RefHead>, anchor: Option<Digest>)
    ensures Accepts(c, m, heads, anchor) <==>
              && LinksUp(c.hash, heads, anchor)
              && forall h :: h in heads ==> TagIsRight(c, m, h) && SignatureIsRight(c, m, h)
  {
    LinksUpIff(c.hash, heads, anchor);
    forall h | h in heads
      ensures TagAccepted(c, m, h) <==> TagIsRight(c, m, h)
      ensures SignatureAccepted(c, m, h) <==> SignatureIsRight(c, m, h)
    {
      TagIsRightIff(c, m, h);
      SignatureIsRightIff(c, m, h);
    }
  }

  lemma TagIsRightIff(c: Checks, m: Member, h: RefHead)
    ensures TagAccepted(c, m, h) <==> TagIsRight(c, m, h)
  {
    if m.macAt(h.epoch).Some? { TagIsCutMac(c.suite, m.macAt(h.epoch).value, h); }
  }

  lemma SignatureIsRightIff(c: Checks, m: Member, h: RefHead)
    ensures SignatureAccepted(c, m, h) <==> SignatureIsRight(c, m, h)
  {
    if m.leafKeys != [] {
      if SignatureAccepted(c, m, h) {
        var key :| key in m.leafKeys && SignedBy(c, h, key);
        var i :| 0 <= i < |m.leafKeys| && m.leafKeys[i] == key;
        assert c.verify(m.leafKeys[i], LeafMessage(h), h.pusherSig);
      }
      if SignatureIsRight(c, m, h) {
        var i :| 0 <= i < |m.leafKeys| && c.verify(m.leafKeys[i], LeafMessage(h), h.pusherSig);
        assert m.leafKeys[i] in m.leafKeys && SignedBy(c, h, m.leafKeys[i]);
      }
    }
  }

  /** A tag stands for one number and one bundle of its epoch. Two accepted heads of an epoch whose
      MAC key the member holds, in whatever runs, that carry one tag and differ in number or root,
      exhibit two MAC inputs whose outputs begin with the same 32 bytes. */
  lemma OneTagPerHead(c: Checks, m: Member, xs: seq<RefHead>, from: Option<Digest>,
                      ys: seq<RefHead>, since: Option<Digest>, g: RefHead, h: RefHead)
    requires Accepts(c, m, xs, from) && Accepts(c, m, ys, since) && g in xs && h in ys
    requires g.epoch == h.epoch && m.macAt(h.epoch).Some? && g.epochTag == h.epochTag
    requires g.seqNo != h.seqNo || g.bundleRoot != h.bundleRoot
    ensures var mk := m.macAt(h.epoch).value;
            TagInput(g) != TagInput(h) && c.suite.hmac(mk, TagInput(g))[..32] == c.suite.hmac(mk, TagInput(h))[..32]
  {
    AcceptedIff(c, m, xs, from);
    AcceptedIff(c, m, ys, since);
    assert TagIsRight(c, m, g) && TagIsRight(c, m, h);
    if TagInput(g) == TagInput(h) { TagInputInjective(g, h); }
  }

  /** With other bytes for a tag that the member can recompute, the run is refused from any anchor. */
  lemma ReplacedTagIsRefused(c: Checks, m: Member, heads: seq<RefHead>, anchor: Option<Digest>, i: nat, tag: Opaque,
                             other: Option<Digest>)
    requires Accepts(c, m, heads, anchor) && i < |heads| && m.macAt(heads[i].epoch).Some? && tag != heads[i].epochTag
    ensures !Accepts(c, m, heads[i := heads[i].(epochTag := tag)], other)
  {
    var h, bad := heads[i], heads[i].(epochTag := tag);
    var changed := heads[i := bad];
    AcceptedIff(c, m, heads, anchor);
    AcceptedIff(c, m, changed, other);
    assert TagIsRight(c, m, h) && TagInput(bad) == TagInput(h) && !TagIsRight(c, m, bad);
    assert changed[i] in changed;
  }

  // ---- The fetch -------------------------------------------------------------------------------------

  lemma {:induction false} KeptAll(listed: seq<RefHead>, from: u64)
    ensures FromEpoch(listed, from) == listed <==> forall h :: h in listed ==> h.epoch >= from
  {
    if listed != [] {
      var rest := listed[1..];
      assert listed == [listed[0]] + rest;
      KeptAll(rest, from);
      SameLengthKeepsAll(rest, from);
      SameLengthKeepsAll(listed, from);
    }
  }

  /** Position `at[k]` of the listing holds the `k`-th kept head. */
  ghost predicate Points(listed: seq<RefHead>, kept: seq<RefHead>, at: seq<nat>) {
    |at| == |kept| && forall k :: 0 <= k < |at| ==> at[k] < |listed| && listed[at[k]] == kept[k]
  }

  ghost predicate Rises(at: seq<nat>) { forall k, l :: 0 <= k < l < |at| ==> at[k] < at[l] }

  ghost predicate Covers(listed: seq<RefHead>, from: u64, at: seq<nat>) {
    forall i {:trigger listed[i]} :: 0 <= i < |listed| ==> (listed[i].epoch >= from <==> i in at)
  }

  function Shifted(at: seq<nat>): (r: seq<nat>)
    ensures |r| == |at| && forall k :: 0 <= k < |at| ==> r[k] == at[k] + 1
  {
    seq(|at|, k requires 0 <= k < |at| => at[k] + 1)
  }

  lemma ShiftedHas(at: seq<nat>, i: nat)
    ensures i in Shifted(at) <==> i > 0 && i - 1 in at
  {
    if i > 0 && i - 1 in at {
      var k :| 0 <= k < |at| && at[k] == i - 1;
      assert Shifted(at)[k] == i;
    }
  }

  lemma CoversShifted(listed: seq<RefHead>, from: u64, tail: seq<nat>)
    requires listed != [] && Covers(listed[1..], from, tail)
    ensures Covers(listed, from, if listed[0].epoch >= from then [0] + Shifted(tail) else Shifted(tail))
  {
    var at := if listed[0].epoch >= from then [0] + Shifted(tail) else Shifted(tail);
    forall i {:trigger listed[i]} | 0 <= i < |listed|
      ensures listed[i].epoch >= from <==> i in at
    {
      ShiftedHas(tail, i);
      if i > 0 { assert listed[i] == listed[1..][i - 1]; }
    }
  }

  lemma PointsShifted(listed: seq<RefHead>, kept: seq<RefHead>, tail: seq<nat>)
    requires listed != [] && Points(listed[1..], kept, tail)
    ensures Points(listed, kept, Shifted(tail)) && Points(listed, [listed[0]] + kept, [0] + Shifted(tail))
  {
  }

  lemma RisesShifted(tail: seq<nat>)
    requires Rises(tail)
    ensures Rises(Shifted(tail)) && Rises([0] + Shifted(tail))
  {
    var at := [0] + Shifted(tail);
    forall k, l | 0 <= k < l < |at|
      ensures at[k] < at[l]
    {
      assert at[l] == Shifted(tail)[l - 1];
      if k > 0 { assert at[k] == Shifted(tail)[k - 1]; }
    }
  }

  /** `at` lists the places of the heads at or above `from`, and `kept` those heads. */
  ghost predicate Keeps(listed: seq<RefHead>, from: u64, kept: seq<RefHead>, at: seq<nat>) {
    Points(listed, kept, at) && Rises(at) && Covers(listed, from, at)
  }

  lemma KeepsOneMore(listed: seq<RefHead>, from: u64, kept: seq<RefHead>, tail: seq<nat>)
    requires listed != [] && Keeps(listed[1..], from, kept, tail)
    ensures listed[0].epoch >= from ==> Keeps(listed, from, [listed[0]] + kept, [0] + Shifted(tail))
    ensures listed[0].epoch < from ==> Keeps(listed, from, kept, Shifted(tail))
  {
    PointsShifted(listed, kept, tail);
    CoversShifted(listed, from, tail);
    RisesShifted(tail);
  }

  /** The heads kept are those at or above the grant, each once and in the order of the listing. */
  lemma {:induction false} KeptPositions(listed: seq<RefHead>, from: u64) returns (at: seq<nat>)
    ensures Keeps(listed, from, FromEpoch(listed, from), at)
  {
    if listed == [] {
      at := [];
    } else {
      var tail := KeptPositions(listed[1..], from);
      KeepsOneMore(listed, from, FromEpoch(listed[1..], from), tail);
      at := if listed[0].epoch >= from then [0] + Shifted(tail) else Shifted(tail);
    }
  }

  /** A fetch succeeds if and only if the heads at or above the grant are accepted, from the anchor
      when none were dropped and from nowhere otherwise, and the advertised tip is not above the
      last of them, or above the cursor when there are none. */
  lemma FetchedIff(c: Checks, m: Member, listed: seq<RefHead>, after: u64, anchor: Option<Digest>, tip: Option<RefHead>)
    ensures var kept := if m.historyFrom == 0 then listed else FromEpoch(listed, m.historyFrom);
            var whole := forall h :: h in listed ==> m.historyFrom <= h.epoch;
            Fetches(c, m, listed, after, anchor, tip) <==>
              && Accepts(c, m, kept, if whole then anchor else None)
              && (tip.Some? && kept != [] ==> tip.value.seqNo <= kept[|kept| - 1].seqNo)
              && (tip.Some? && kept == [] ==> tip.value.seqNo <= after)
  {
    KeptAll(listed, m.historyFrom);
  }
}
