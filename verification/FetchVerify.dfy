/** What a reader checks before it trusts a run of heads, and what that buys it. */
module FetchVerify {
  import opened Bytes
  import opened Primitives
  import opened RefHeads
  import opened HeadFormats
  import opened HeadStore

  datatype FetchError = Broken | Gap | BadTag | FutureEpoch | BadSignature | Withheld

  // ---- The hash chain --------------------------------------------------------------

  /** What the `i`-th head of a run has to name, given the trusted predecessor. */
  function LinkHash(hash: HashFn, heads: seq<RefHead>, anchor: Digest, i: nat): Digest
    requires i <= |heads|
  {
    if i == 0 then anchor else hash(heads[i - 1])
  }

  /** An unbroken run from `anchor`. The sequence number of the first head is free. */
  ghost predicate Descends(hash: HashFn, heads: seq<RefHead>, anchor: Digest) {
    && (forall i {:trigger LinkHash(hash, heads, anchor, i)} :: 0 <= i < |heads| ==>
          heads[i].prev == LinkHash(hash, heads, anchor, i))
    && (forall i :: 0 < i < |heads| ==> heads[i].seqNo == heads[0].seqNo + i)
  }

  method VerifyHeadChain(hash: HashFn, heads: seq<RefHead>, anchor: Digest) returns (r: Result<(), FetchError>)
    ensures r.Ok? <==> Descends(hash, heads, anchor)
  {
    var expectPrev := anchor;
    var expectSeq: Option<u64> := None;
    for i := 0 to |heads|
      invariant expectPrev == LinkHash(hash, heads, anchor, i)
      invariant expectSeq == if i == 0 then None else Some(heads[i - 1].seqNo)
      invariant forall j {:trigger LinkHash(hash, heads, anchor, j)} :: 0 <= j < i ==>
                  heads[j].prev == LinkHash(hash, heads, anchor, j)
      invariant forall j :: 0 < j < i ==> heads[j].seqNo == heads[0].seqNo + j
    {
      var head := heads[i];
      if head.prev != expectPrev {
        assert head.prev != LinkHash(hash, heads, anchor, i);
        return Err(Broken);
      }
      if expectSeq.Some? {
        if head.seqNo != expectSeq.value + 1 { return Err(Gap); }
      }
      expectSeq := Some(head.seqNo);
      expectPrev := hash(head);
    }
    r := Ok(());
  }

  // ---- Epoch tags and leaf signatures ------------------------------------------------

  /** What a member brings: the epoch MAC keys it holds and its own epoch. */
  datatype Member = Member(epoch: u64, macAt: u64 -> Option<Bytes>, historyFrom: u64, leafKeys: seq<Bytes>)

  /** The member's primitives: hashing of heads, the tag MAC, and signature checking. */
  datatype Checks = Checks(hash: HashFn, suite: Suite, verify: (Bytes, Bytes, Bytes) -> bool)

  function EpochTag(suite: Suite, mk: Bytes, epoch: u64, root: Digest, seqNo: u64): (t: Bytes32)
  {
    suite.hmac(mk, DomainLabel("epoch-tag") + LE64(epoch) + root + LE64(seqNo))[..32]
  }

  /** Constant-time comparison: accumulate the differences, then look once. */
  method VerifyEpochTag(suite: Suite, head: RefHead, mk: Bytes) returns (ok: bool)
    ensures ok <==> head.epochTag == EpochTag(suite, mk, head.epoch, head.bundleRoot, head.seqNo)
  {
    var want := EpochTag(suite, mk, head.epoch, head.bundleRoot, head.seqNo);
    if |want| != |head.epochTag| { return false; }
    var acc: byte := 0;
    for i := 0 to |want|
      invariant acc == 0 <==> want[..i] == head.epochTag[..i]
    {
      DiffStep(acc, want[i], head.epochTag[i]);
      assert want[..i + 1] == want[..i] + [want[i]];
      assert head.epochTag[..i + 1] == head.epochTag[..i] + [head.epochTag[i]];
      acc := Or(acc, Xor(want[i], head.epochTag[i]));
    }
    assert want[..|want|] == want && head.epochTag[..|want|] == head.epochTag;
    ok := acc == 0;
  }

  function LeafMessage(h: RefHead): Bytes {
    DomainLabel("refhead") + h.repoId + LE64(h.seqNo) + h.encRefs + h.bundleRoot + h.dekWrap + h.prev +
    LE64(h.epoch) + h.epochTag + [Flag(h.nonFf)]
  }

  /** A head of an epoch whose MAC key the member holds must carry its tag; one whose
      key it lacks is let through unless the epoch lies in the member's future. */
  predicate TagAccepted(c: Checks, m: Member, h: RefHead) {
    match m.macAt(h.epoch)
    case Some(mk) => h.epochTag == EpochTag(c.suite, mk, h.epoch, h.bundleRoot, h.seqNo)
    case None => h.epoch <= m.epoch
  }

  predicate SignedBy(c: Checks, h: RefHead, key: Bytes) {
    h.pusherSig != [] && c.verify(key, LeafMessage(h), h.pusherSig)
  }

  predicate SignatureAccepted(c: Checks, m: Member, h: RefHead) {
    m.leafKeys == [] || exists key :: key in m.leafKeys && SignedBy(c, h, key)
  }

  ghost predicate ChainAccepted(hash: HashFn, heads: seq<RefHead>, anchor: Option<Digest>) {
    match anchor
    case Some(a) => Descends(hash, heads, a)
    case None => heads == [] || Descends(hash, heads[1..], hash(heads[0]))
  }

  ghost predicate Accepts(c: Checks, m: Member, heads: seq<RefHead>, anchor: Option<Digest>) {
    ChainAccepted(c.hash, heads, anchor)
    && forall h :: h in heads ==> TagAccepted(c, m, h) && SignatureAccepted(c, m, h)
  }

  method VerifyFetchedHeads(c: Checks, m: Member, heads: seq<RefHead>, anchor: Option<Digest>)
    returns (r: Result<(), FetchError>)
    ensures r.Ok? <==> Accepts(c, m, heads, anchor)
  {
    if anchor.Some? {
      var _ :- VerifyHeadChain(c.hash, heads, anchor.value);
    } else if heads != [] {
      var _ :- VerifyHeadChain(c.hash, heads[1..], c.hash(heads[0]));
    }
    for i := 0 to |heads|
      invariant forall h :: h in heads[..i] ==> TagAccepted(c, m, h) && SignatureAccepted(c, m, h)
    {
      var head := heads[i];
      var mk := m.macAt(head.epoch);
      if mk.Some? {
        var ok := VerifyEpochTag(c.suite, head, mk.value);
        if !ok {
          assert !TagAccepted(c, m, head);
          return Err(BadTag);
        }
      } else if head.epoch > m.epoch {
        assert !TagAccepted(c, m, head);
        return Err(FutureEpoch);
      }
      if |m.leafKeys| > 0 {
        var ok := false;
        var k := 0;
        while k < |m.leafKeys| && !ok
          invariant 0 <= k <= |m.leafKeys|
          invariant ok <==> exists j :: 0 <= j < k && SignedBy(c, head, m.leafKeys[j])
        {
          ok := head.pusherSig != [] && c.verify(m.leafKeys[k], LeafMessage(head), head.pusherSig);
          k := k + 1;
        }
        if !ok {
          assert !SignatureAccepted(c, m, head);
          return Err(BadSignature);
        }
      }
      assert heads[..i + 1] == heads[..i] + [head];
    }
    assert heads[..|heads|] == heads;
    r := Ok(());
  }

  // ---- The whole fetch, up to decryption ---------------------------------------------

  function FromEpoch(heads: seq<RefHead>, from: u64): (r: seq<RefHead>)
    ensures forall h :: h in r ==> h in heads && h.epoch >= from
  {
    if heads == [] then []
    else if heads[0].epoch >= from then [heads[0]] + FromEpoch(heads[1..], from)
    else FromEpoch(heads[1..], from)
  }

  /** A forward-only member drops the anchor with the heads below its grant. */
  function EffectiveAnchor(m: Member, listed: seq<RefHead>, anchor: Option<Digest>): Option<Digest> {
    if m.historyFrom > 0 && FromEpoch(listed, m.historyFrom) != listed then None else anchor
  }

  function Retained(m: Member, listed: seq<RefHead>): seq<RefHead> {
    if m.historyFrom > 0 then FromEpoch(listed, m.historyFrom) else listed
  }

  predicate ReachesTip(heads: seq<RefHead>, after: u64, tip: Option<RefHead>) {
    match tip
    case None => true
    case Some(t) => if heads == [] then t.seqNo <= after else t.seqNo <= heads[|heads| - 1].seqNo
  }

  /** Drop the heads below the grant, and with them the anchor. */
  method RestrictToWindow(m: Member, listed: seq<RefHead>, anchor: Option<Digest>)
    returns (heads: seq<RefHead>, trusted: Option<Digest>)
    ensures heads == Retained(m, listed) && trusted == EffectiveAnchor(m, listed, anchor)
  {
    heads, trusted := listed, anchor;
    if m.historyFrom > 0 {
      var before := |heads|;
      SameLengthKeepsAll(heads, m.historyFrom);
      heads := FromEpoch(heads, m.historyFrom);
      if |heads| != before { trusted := None; }
    }
  }

  ghost predicate Fetches(c: Checks, m: Member, listed: seq<RefHead>, after: u64, anchor: Option<Digest>,
                          tip: Option<RefHead>)
  {
    var heads := Retained(m, listed);
    Accepts(c, m, heads, EffectiveAnchor(m, listed, anchor)) && ReachesTip(heads, after, tip)
  }

  /** The checks of a fetch: sort, restrict, verify, and compare with the advertised tip. */
  method FetchHeadsSince(c: Checks, m: Member, served: seq<RefHead>, after: u64, anchor: Option<Digest>,
                         tip: Option<RefHead>) returns (r: Result<seq<RefHead>, FetchError>)
    ensures r.Ok? <==> Fetches(c, m, SortBySeq(served), after, anchor, tip)
    ensures r.Ok? ==> r.value == Retained(m, SortBySeq(served))
  {
    var listed := SortBySeq(served);
    var heads, trusted := RestrictToWindow(m, listed, anchor);
    var verdict := VerifyFetchedHeads(c, m, heads, trusted);
    if verdict.Err? { return Err(verdict.error); }
    if tip.Some? {
      if heads != [] && heads[|heads| - 1].seqNo < tip.value.seqNo { return Err(Withheld); }
      if heads == [] && tip.value.seqNo > after { return Err(Withheld); }
    }
    r := Ok(heads);
  }

  lemma {:induction false} SameLengthKeepsAll(heads: seq<RefHead>, from: u64)
    ensures |FromEpoch(heads, from)| <= |heads|
    ensures FromEpoch(heads, from) == heads <==> |FromEpoch(heads, from)| == |heads|
  {
    if heads != [] {
      SameLengthKeepsAll(heads[1..], from);
      assert heads == [heads[0]] + heads[1..];
    }
  }

  // ---- What acceptance means -----------------------------------------------------------

  /** Runs that agree at the end agree going back, as long as both last. */
  lemma {:induction false} SameFromTip(hash: HashFn, a: seq<RefHead>, b: seq<RefHead>, k: nat)
    requires Descends(hash, a, ZERO_HASH) && Descends(hash, b, ZERO_HASH)
    requires k < |a| && k < |b| && hash(a[|a| - 1]) == hash(b[|b| - 1])
    requires NoCollision(hash, SetOf(a) + SetOf(b))
    ensures a[|a| - 1 - k] == b[|b| - 1 - k]
  {
    var x, y := a[|a| - 1 - k], b[|b| - 1 - k];
    assert x in SetOf(a) + SetOf(b) && y in SetOf(a) + SetOf(b);
    if k > 0 {
      SameFromTip(hash, a, b, k - 1);
      assert a[|a| - k].prev == LinkHash(hash, a, ZERO_HASH, |a| - k);
      assert b[|b| - k].prev == LinkHash(hash, b, ZERO_HASH, |b| - k);
    }
  }

  lemma NotShorter(hash: HashFn, a: seq<RefHead>, b: seq<RefHead>)
    requires Descends(hash, a, ZERO_HASH) && Descends(hash, b, ZERO_HASH)
    requires 0 < |a| <= |b| && hash(a[|a| - 1]) == hash(b[|b| - 1])
    requires NoCollision(hash, SetOf(a) + SetOf(b))
    requires forall h :: h in b ==> hash(h) != ZERO_HASH
    ensures |a| == |b|
  {
    SameFromTip(hash, a, b, |a| - 1);
    assert a[0].prev == LinkHash(hash, a, ZERO_HASH, 0);
    assert b[|b| - |a|].prev == LinkHash(hash, b, ZERO_HASH, |b| - |a|);
    OnlyFirstLinksToGenesis(hash, b, |b| - |a|);
  }

  /** A run is pinned by its anchor and its last hash: two runs accepted from genesis that
      end in the same hash are the same run, unless two of their heads collide or one of
      them hashes to the genesis marker. */
  lemma RunPinnedByTip(hash: HashFn, a: seq<RefHead>, b: seq<RefHead>)
    requires Descends(hash, a, ZERO_HASH) && Descends(hash, b, ZERO_HASH) && a != [] && b != []
    requires hash(a[|a| - 1]) == hash(b[|b| - 1])
    requires NoCollision(hash, SetOf(a) + SetOf(b))
    requires forall h :: h in a || h in b ==> hash(h) != ZERO_HASH
    ensures a == b
  {
    if |a| <= |b| {
      NotShorter(hash, a, b);
    } else {
      assert SetOf(b) + SetOf(a) == SetOf(a) + SetOf(b);
      NotShorter(hash, b, a);
    }
    forall i | 0 <= i < |a|
      ensures a[i] == b[i]
    {
      SameFromTip(hash, a, b, |a| - 1 - i);
    }
  }

  lemma OnlyFirstLinksToGenesis(hash: HashFn, heads: seq<RefHead>, i: nat)
    requires i <= |heads| && forall h :: h in heads ==> hash(h) != ZERO_HASH
    ensures LinkHash(hash, heads, ZERO_HASH, i) == ZERO_HASH <==> i == 0
  {
    if i > 0 { assert heads[i - 1] in heads; }
  }

  lemma DescendsPrefix(hash: HashFn, heads: seq<RefHead>, anchor: Digest, n: nat)
    requires Descends(hash, heads, anchor) && n <= |heads|
    ensures Descends(hash, heads[..n], anchor)
  {
    var front := heads[..n];
    forall i | 0 <= i < n
      ensures front[i].prev == LinkHash(hash, front, anchor, i)
    {
      assert heads[i].prev == LinkHash(hash, heads, anchor, i);
    }
  }

  /** The hash a reader keeps after accepting a run. */
  function NextAnchor(hash: HashFn, heads: seq<RefHead>, anchor: Digest): Digest {
    LinkHash(hash, heads, anchor, |heads|)
  }

  /** Accepting a log in two fetches equals accepting it in one exactly when the second
      fetch also continues the numbering, which the anchor alone does not enforce. */
  lemma TwoFetchesAreOne(hash: HashFn, a: seq<RefHead>, b: seq<RefHead>, anchor: Digest)
    ensures Descends(hash, a + b, anchor) <==>
              && Descends(hash, a, anchor)
              && Descends(hash, b, NextAnchor(hash, a, anchor))
              && (a != [] && b != [] ==> b[0].seqNo == a[0].seqNo + |a|)
  {
    var all := a + b;
    forall i | 0 <= i < |a|
      ensures LinkHash(hash, all, anchor, i) == LinkHash(hash, a, anchor, i) && all[i] == a[i]
    {
    }
    forall i | 0 <= i < |b|
      ensures LinkHash(hash, all, anchor, |a| + i) == LinkHash(hash, b, NextAnchor(hash, a, anchor), i)
              && all[|a| + i] == b[i]
    {
    }
    if Descends(hash, all, anchor) {
      DescendsPrefix(hash, all, anchor, |a|);
      assert all[..|a|] == a;
      DescendsSuffix(hash, a, b, anchor);
    } else if Descends(hash, a, anchor) && Descends(hash, b, NextAnchor(hash, a, anchor))
              && (a != [] && b != [] ==> b[0].seqNo == a[0].seqNo + |a|) {
      forall i | 0 <= i < |all|
        ensures all[i].prev == LinkHash(hash, all, anchor, i)
      {
        if i < |a| { assert a[i].prev == LinkHash(hash, a, anchor, i); }
        else { assert b[i - |a|].prev == LinkHash(hash, b, NextAnchor(hash, a, anchor), i - |a|); }
      }
    }
  }

  /** Heads 1 and 5, each naming the one before, are accepted in two fetches and not in one. */
  lemma NumberingJumpAccepted(hash: HashFn)
    ensures var g := BareHead(1, ZERO_HASH, false);
            var h := BareHead(5, hash(g), false);
            && Descends(hash, [g], ZERO_HASH) && Descends(hash, [h], NextAnchor(hash, [g], ZERO_HASH))
            && !Descends(hash, [g] + [h], ZERO_HASH)
  {
    var g := BareHead(1, ZERO_HASH, false);
    var h := BareHead(5, hash(g), false);
    assert ([g] + [h])[0] == g && ([g] + [h])[1] == h;
    TwoFetchesAreOne(hash, [g], [h], ZERO_HASH);
  }

  lemma DescendsSuffix(hash: HashFn, a: seq<RefHead>, b: seq<RefHead>, anchor: Digest)
    requires Descends(hash, a + b, anchor)
    ensures Descends(hash, b, NextAnchor(hash, a, anchor))
    ensures a != [] && b != [] ==> b[0].seqNo == a[0].seqNo + |a|
  {
    var all := a + b;
    assert b != [] ==> all[|a|] == b[0];
    forall i | 0 <= i < |b|
      ensures b[i].prev == LinkHash(hash, b, NextAnchor(hash, a, anchor), i)
    {
      assert all[|a| + i].prev == LinkHash(hash, all, anchor, |a| + i);
    }
    forall i | 0 < i < |b|
      ensures b[i].seqNo == b[0].seqNo + i
    {
      assert all[|a| + i] == b[i] && all[|a| + i].seqNo == all[0].seqNo + (|a| + i);
      assert |a| > 0 ==> all[|a|].seqNo == all[0].seqNo + |a|;
    }
  }
}
