/** What an accepted admin authorization says about who signed. */
module QuorumGuarantees {
  import opened Bytes
  import opened Primitives
  import opened RefHeads
  import opened Merkle
  import opened Quorum
  import C = Consolidation
  import G = ConsolidationGuarantees

  // ---- Which strings are bundles ----------------------------------------------------------------

  ghost predicate IsBundle(sig: Bytes, m: byte, sigs: seq<Opaque>) { |sigs| <= 255 && sig == EncodeQuorum(m, sigs) }

  ghost predicate IsPlain(sig: Bytes) { forall m, sigs :: !IsBundle(sig, m, sigs) }

  lemma BundlesDecode(sig: Bytes, m: byte, sigs: seq<Opaque>)
    ensures IsBundle(sig, m, sigs) <==> DecodeQuorum(sig) == Some((m, sigs))
  {
    if IsBundle(sig, m, sigs) { DecodeInvertsEncode(m, sigs); }
    if DecodeQuorum(sig) == Some((m, sigs)) { EncodeInvertsDecode(sig); }
  }

  lemma PlainDoesNotDecode(sig: Bytes)
    ensures IsPlain(sig) <==> DecodeQuorum(sig).None?
  {
    forall m, sigs
      ensures IsBundle(sig, m, sigs) <==> DecodeQuorum(sig) == Some((m, sigs))
    {
      BundlesDecode(sig, m, sigs);
    }
    if DecodeQuorum(sig).Some? {
      var decoded := DecodeQuorum(sig).value;
      assert IsBundle(sig, decoded.0, decoded.1);
    }
  }

  /** Where signature `k` begins in a bundle. */
  function FrameStart(sigs: seq<Opaque>, k: nat): (at: nat)
    requires k <= |sigs|
    ensures at >= 6
  {
    if k == 0 then 6 else FrameStart(sigs, k - 1) + 4 + |sigs[k - 1]|
  }

  lemma {:induction false} FramesFrom(sigs: seq<Opaque>, k: nat)
    requires k <= |sigs|
    ensures FrameStart(sigs, k) - 6 <= |Frames(sigs)|
    ensures Frames(sigs)[FrameStart(sigs, k) - 6..] == Frames(sigs[k..])
  {
    if k == 0 {
      assert sigs[0..] == sigs;
    } else {
      FramesFrom(sigs, k - 1);
      var from := FrameStart(sigs, k - 1) - 6;
      assert sigs[k - 1..][1..] == sigs[k..];
      assert Frames(sigs)[from..][4 + |sigs[k - 1]|..] == Frames(sigs[k..]);
    }
  }

  lemma BundleHead(m: byte, sigs: seq<Opaque>)
    requires |sigs| <= 255
    ensures var b := EncodeQuorum(m, sigs);
            b[..4] == [0x53, 0x48, 0x51, 0x31] && b[4] == m && b[5] == |sigs| as byte && b[6..] == Frames(sigs)
  {
    SixBytes(MAGIC, m, |sigs| as byte, Frames(sigs));
  }

  lemma SixBytes(magic: Bytes, m: byte, n: byte, rest: Bytes)
    requires |magic| == 4
    ensures var b := magic + ([m] + ([n] + rest)); b[..4] == magic && b[4] == m && b[5] == n && b[6..] == rest
  {
  }

  /** The wire form of a bundle: four fixed bytes, the threshold, the count, and each signature
      after its length. */
  lemma BundleLayout(m: byte, sigs: seq<Opaque>, k: nat)
    requires |sigs| <= 255 && k < |sigs|
    ensures var b := EncodeQuorum(m, sigs);
            b[..4] == [0x53, 0x48, 0x51, 0x31] && b[4] == m && b[5] == |sigs| as byte
    ensures FramedAt(EncodeQuorum(m, sigs), FrameStart(sigs, k), sigs[k])
  {
    BundleHead(m, sigs);
    FramesFrom(sigs, k);
    FrameOf(EncodeQuorum(m, sigs), FrameStart(sigs, k), Frames(sigs), sigs[k..]);
  }

  lemma FrameOf(b: Bytes, at: nat, f: Bytes, rest: seq<Opaque>)
    requires 6 <= at <= |b| && b[6..] == f && f[at - 6..] == Frames(rest) && rest != []
    ensures FramedAt(b, at, rest[0])
  {
    assert b[at..] == f[at - 6..];
    FramedIn(b, at, rest[0], Frames(rest[1..]));
  }

  // ---- What is accepted --------------------------------------------------------------------------

  /** The signatures of a bundle that some listed key verifies. */
  ghost function ValidSet(verify: VerifyFn, vks: seq<Bytes>, msg: Bytes, sigs: seq<Opaque>): set<nat> {
    set i: nat | i < |sigs| && exists vk :: vk in vks && verify(vk, msg, sigs[i])
  }

  lemma {:induction false} ValidSignaturesIsCount(verify: VerifyFn, vks: seq<Bytes>, msg: Bytes, sigs: seq<Opaque>)
    ensures C.ValidSignatures(verify, vks, msg, sigs) == |ValidSet(verify, vks, msg, sigs)|
  {
    if sigs != [] {
      var n := |sigs| - 1;
      var front := ValidSet(verify, vks, msg, sigs[..n]);
      ValidSignaturesIsCount(verify, vks, msg, sigs[..n]);
      assert ValidSet(verify, vks, msg, sigs) == front + if C.AnyKey(verify, vks, msg, sigs[n]) then {n} else {};
    }
  }

  /** A receipt authorization that is no bundle is accepted if and only if some listed key
      verifies it, and a bundle if and only if at least its threshold of signatures are verified. */
  lemma AuthorizedIff(verify: VerifyFn, vks: seq<Bytes>, msg: Bytes, sig: Bytes)
    ensures IsPlain(sig) ==>
              (C.Authorized(verify, vks, msg, sig) <==> exists i :: 0 <= i < |vks| && verify(vks[i], msg, sig))
    ensures forall m, sigs :: IsBundle(sig, m, sigs) ==>
              (C.Authorized(verify, vks, msg, sig) <==> |ValidSet(verify, vks, msg, sigs)| >= m as nat)
  {
    PlainDoesNotDecode(sig);
    if IsPlain(sig) && C.AnyKey(verify, vks, msg, sig) {
      var vk :| vk in vks && verify(vk, msg, sig);
      var i :| 0 <= i < |vks| && vks[i] == vk;
      assert verify(vks[i], msg, sig);
    }
    forall m, sigs | IsBundle(sig, m, sigs)
      ensures C.Authorized(verify, vks, msg, sig) <==> |ValidSet(verify, vks, msg, sigs)| >= m as nat
    {
      BundlesDecode(sig, m, sigs);
      ValidSignaturesIsCount(verify, vks, msg, sigs);
    }
  }

  /** The positions of a bundle whose signature the key of that position verifies. */
  ghost function MatchedSet(verify: VerifyFn, vks: seq<Bytes>, msg: Bytes, sigs: seq<Opaque>, n: nat): set<nat>
    requires n <= |sigs| <= |vks|
  {
    set i: nat | i < n && verify(vks[i], msg, sigs[i])
  }

  lemma {:induction false} ValidPositionsIsCount(verify: VerifyFn, vks: seq<Bytes>, msg: Bytes, sigs: seq<Opaque>,
                                                 n: nat)
    requires n <= |sigs| <= |vks|
    ensures ValidPositions(verify, vks, msg, sigs, n) == |MatchedSet(verify, vks, msg, sigs, n)|
  {
    if n > 0 {
      var front := MatchedSet(verify, vks, msg, sigs, n - 1);
      ValidPositionsIsCount(verify, vks, msg, sigs, n - 1);
      assert MatchedSet(verify, vks, msg, sigs, n)
          == front + if verify(vks[n - 1], msg, sigs[n - 1]) then {n - 1} else {};
    }
  }

  /** A head's co-signature that is no bundle is accepted if and only if the first listed key
      verifies it. A bundle is accepted if and only if there is a key for every signature and at
      least the threshold of them are verified by the key at their own position. */
  lemma CosignedIff(verify: VerifyFn, vks: seq<Bytes>, msg: Bytes, cosig: Bytes)
    ensures IsPlain(cosig) ==>
              (QuorumAccepts(verify, vks, msg, cosig) <==> |vks| > 0 && verify(vks[0], msg, cosig))
    ensures forall m, sigs :: IsBundle(cosig, m, sigs) ==>
              (QuorumAccepts(verify, vks, msg, cosig) <==>
               |sigs| <= |vks| && |MatchedSet(verify, vks, msg, sigs, |sigs|)| >= m as nat)
  {
    PlainDoesNotDecode(cosig);
    forall m, sigs | IsBundle(cosig, m, sigs)
      ensures QuorumAccepts(verify, vks, msg, cosig) <==>
              |sigs| <= |vks| && |MatchedSet(verify, vks, msg, sigs, |sigs|)| >= m as nat
    {
      BundlesDecode(cosig, m, sigs);
      if |sigs| <= |vks| { ValidPositionsIsCount(verify, vks, msg, sigs, |sigs|); }
    }
  }

  // ---- Did anybody sign? -----------------------------------------------------------------------

  /** The threshold an authorization asks for: its fifth byte when it is a bundle, else one. */
  function Threshold(sig: Bytes): nat {
    var decoded := DecodeQuorum(sig);
    if decoded.Some? then decoded.value.0 as nat else 1
  }

  function Signatures(sig: Bytes): seq<Bytes> {
    var decoded := DecodeQuorum(sig);
    if decoded.Some? then decoded.value.1 else [sig]
  }

  /** Some signature of the authorization verifies under some key. */
  ghost predicate SomeoneSigned(verify: VerifyFn, vks: seq<Bytes>, msg: Bytes, sig: Bytes) {
    exists s :: s in Signatures(sig) && C.AnyKey(verify, vks, msg, s)
  }

  lemma {:induction false} OneIsValid(verify: VerifyFn, vks: seq<Bytes>, msg: Bytes, sigs: seq<Opaque>)
    requires C.ValidSignatures(verify, vks, msg, sigs) > 0
    ensures exists s :: s in sigs && C.AnyKey(verify, vks, msg, s)
  {
    var n := |sigs| - 1;
    if C.AnyKey(verify, vks, msg, sigs[n]) {
      assert sigs[n] in sigs;
    } else {
      OneIsValid(verify, vks, msg, sigs[..n]);
      var s :| s in sigs[..n] && C.AnyKey(verify, vks, msg, s);
      assert s in sigs;
    }
  }

  /** Nothing verifies. */
  function Never(key: Bytes, msg: Bytes, sig: Bytes): bool { false }

  /** A receipt authorization shows a valid signature, under every signature scheme, exactly
      when it asks for at least one. */
  lemma AuthorizedMeansSignedIff(vks: seq<Bytes>, msg: Bytes, sig: Bytes)
    ensures (forall verify: VerifyFn :: C.Authorized(verify, vks, msg, sig) ==> SomeoneSigned(verify, vks, msg, sig))
            <==> Threshold(sig) != 0
  {
    if Threshold(sig) == 0 {
      assert C.Authorized(Never, vks, msg, sig) && !SomeoneSigned(Never, vks, msg, sig);
    } else {
      forall verify: VerifyFn | C.Authorized(verify, vks, msg, sig)
        ensures SomeoneSigned(verify, vks, msg, sig)
      {
        var decoded := DecodeQuorum(sig);
        if decoded.Some? {
          OneIsValid(verify, vks, msg, decoded.value.1);
        } else {
          assert sig in Signatures(sig);
        }
      }
    }
  }

  /** The smallest bundle: threshold zero, no signatures. The encoder refuses to write it,
      the decoder reads it. */
  const EMPTY_BUNDLE: Bytes := MAGIC + [0, 0]

  lemma EmptyBundleDecodes()
    ensures DecodeQuorum(EMPTY_BUNDLE) == Some((0, [])) && Threshold(EMPTY_BUNDLE) == 0
  {
    assert EMPTY_BUNDLE[..4] == MAGIC && EMPTY_BUNDLE[4] == 0 && EMPTY_BUNDLE[5] == 0 && EMPTY_BUNDLE[6..] == [];
  }

  /** So a receipt that carries it is accepted by every window of its span under any keys,
      although nothing anybody signed would verify. */
  lemma UnsignedReceiptAccepted(k: C.Kit, r: C.Receipt, vks: seq<Bytes>, heads: seq<RefHead>, proofs: map<u64, Path>)
    requires k.verify == Never && vks != [] && heads != [] && C.Consecutive(heads)
    requires r == C.PlanFor(k, r.repoId, r.epoch, heads).receipt.(adminSig := EMPTY_BUNDLE)
    requires G.PlannedProofs(k, heads, 0, |heads|, proofs)
    ensures C.AcceptsWindow(k, r, vks, heads, proofs)
  {
    EmptyBundleDecodes();
    assert heads[0..|heads|] == heads;
    G.HonestReceiptAccepted(k, r, vks, heads, 0, |heads|, heads, 0, |heads|, 0, |heads|, proofs);
  }

  // ---- How many people signed? --------------------------------------------------------------------

  /** The listed keys under which some signature of the bundle verifies. */
  function Signers(verify: VerifyFn, vks: seq<Bytes>, msg: Bytes, sigs: seq<Opaque>): set<Bytes> {
    if sigs == [] then {}
    else Signers(verify, vks, msg, sigs[..|sigs| - 1]) + KeysOf(verify, vks, msg, sigs[|sigs| - 1])
  }

  function KeysOf(verify: VerifyFn, vks: seq<Bytes>, msg: Bytes, s: Bytes): set<Bytes> {
    set vk | vk in vks && verify(vk, msg, s)
  }

  lemma {:induction false} SignerSigned(verify: VerifyFn, vks: seq<Bytes>, msg: Bytes, sigs: seq<Opaque>, vk: Bytes)
    requires vk in Signers(verify, vks, msg, sigs)
    ensures vk in vks && exists i :: 0 <= i < |sigs| && verify(vk, msg, sigs[i])
  {
    var n := |sigs| - 1;
    if vk in KeysOf(verify, vks, msg, sigs[n]) {
      assert verify(vk, msg, sigs[n]);
    } else {
      SignerSigned(verify, vks, msg, sigs[..n], vk);
      var i :| 0 <= i < n && verify(vk, msg, sigs[..n][i]);
      assert verify(vk, msg, sigs[i]);
    }
  }

  lemma FrontSigner(verify: VerifyFn, vks: seq<Bytes>, msg: Bytes, sigs: seq<Opaque>, vk: Bytes)
    requires sigs != [] && vk in Signers(verify, vks, msg, sigs[..|sigs| - 1])
    ensures vk in vks && exists i :: 0 <= i < |sigs| - 1 && verify(vk, msg, sigs[i])
  {
    var front := sigs[..|sigs| - 1];
    SignerSigned(verify, vks, msg, front, vk);
    var i :| 0 <= i < |front| && verify(vk, msg, front[i]);
    assert front[i] == sigs[i];
  }

  /** No listed key verifies two of the signatures. */
  ghost predicate OnePerKey(verify: VerifyFn, vks: seq<Bytes>, msg: Bytes, sigs: seq<Opaque>) {
    forall i, j, vk :: 0 <= i < j < |sigs| && vk in vks && verify(vk, msg, sigs[i]) ==> !verify(vk, msg, sigs[j])
  }

  /** The count of valid signatures is a count of signers when no key verifies two. */
  lemma {:induction false} ValidSignaturesCountSigners(verify: VerifyFn, vks: seq<Bytes>, msg: Bytes, sigs: seq<Opaque>)
    requires OnePerKey(verify, vks, msg, sigs)
    ensures C.ValidSignatures(verify, vks, msg, sigs) <= |Signers(verify, vks, msg, sigs)|
  {
    if sigs != [] {
      var n := |sigs| - 1;
      var front, last := sigs[..n], KeysOf(verify, vks, msg, sigs[n]);
      assert forall i :: 0 <= i < n ==> front[i] == sigs[i];
      ValidSignaturesCountSigners(verify, vks, msg, front);
      forall vk | vk in last
        ensures vk !in Signers(verify, vks, msg, front)
      {
        if vk in Signers(verify, vks, msg, front) {
          FrontSigner(verify, vks, msg, sigs, vk);
          assert false;
        }
      }
      assert Signers(verify, vks, msg, front) !! last;
      if C.AnyKey(verify, vks, msg, sigs[n]) {
        var vk :| vk in vks && verify(vk, msg, sigs[n]);
        assert vk in last;
      }
    }
  }

  /** An accepted bundle of threshold `m` shows `m` different signers. */
  ghost predicate ShowsSigners(verify: VerifyFn, vks: seq<Bytes>, msg: Bytes, m: byte, sigs: seq<Opaque>)
    requires |sigs| <= 255
  {
    C.Authorized(verify, vks, msg, EncodeQuorum(m, sigs)) ==> |Signers(verify, vks, msg, sigs)| >= m as nat
  }

  function Repeat(s: Opaque, n: nat): (r: seq<Opaque>)
    ensures |r| == n
  {
    seq<Opaque>(n, _ => s)
  }

  lemma {:induction false} RepeatedSigner(verify: VerifyFn, vks: seq<Bytes>, msg: Bytes, vk: Bytes, s: Opaque, n: nat)
    requires KeysOf(verify, vks, msg, s) == {vk}
    ensures C.ValidSignatures(verify, vks, msg, Repeat(s, n)) == n
    ensures Signers(verify, vks, msg, Repeat(s, n)) <= {vk}
  {
    if n > 0 {
      assert Repeat(s, n)[..n - 1] == Repeat(s, n - 1);
      assert vk in KeysOf(verify, vks, msg, s);
      RepeatedSigner(verify, vks, msg, vk, s, n - 1);
    }
  }

  lemma SomeSignerIfValid(verify: VerifyFn, vks: seq<Bytes>, msg: Bytes, sigs: seq<Opaque>)
    requires C.ValidSignatures(verify, vks, msg, sigs) > 0
    ensures |Signers(verify, vks, msg, sigs)| > 0
  {
    OneIsValid(verify, vks, msg, sigs);
    var s :| s in sigs && C.AnyKey(verify, vks, msg, s);
    var vk :| vk in vks && verify(vk, msg, s);
    SignsIn(verify, vks, msg, sigs, s, vk);
  }

  lemma {:induction false} SignsIn(verify: VerifyFn, vks: seq<Bytes>, msg: Bytes, sigs: seq<Opaque>, s: Bytes,
                                   vk: Bytes)
    requires s in sigs && vk in vks && verify(vk, msg, s)
    ensures vk in Signers(verify, vks, msg, sigs)
  {
    var n := |sigs| - 1;
    if s != sigs[n] { SignsIn(verify, vks, msg, sigs[..n], s, vk); }
  }

  /** Where one key alone verifies some signature, receipts are protected by as many signers
      as their threshold asks for exactly when it asks for at most one. */
  lemma ThresholdCountsSignersIff(verify: VerifyFn, vks: seq<Bytes>, msg: Bytes, vk: Bytes, s: Opaque, m: byte)
    requires KeysOf(verify, vks, msg, s) == {vk}
    ensures (forall sigs: seq<Opaque> :: |sigs| <= 255 ==> ShowsSigners(verify, vks, msg, m, sigs)) <==> m <= 1
  {
    forall sigs: seq<Opaque> | |sigs| <= 255
      ensures C.Authorized(verify, vks, msg, EncodeQuorum(m, sigs))
              <==> C.ValidSignatures(verify, vks, msg, sigs) >= m as nat
      ensures C.ValidSignatures(verify, vks, msg, sigs) > 0 ==> |Signers(verify, vks, msg, sigs)| > 0
    {
      DecodeInvertsEncode(m, sigs);
      if C.ValidSignatures(verify, vks, msg, sigs) > 0 { SomeSignerIfValid(verify, vks, msg, sigs); }
    }
    if m > 1 {
      var sigs := Repeat(s, m as nat);
      RepeatedSigner(verify, vks, msg, vk, s, m as nat);
      SmallerSet(Signers(verify, vks, msg, sigs), {vk});
      assert !ShowsSigners(verify, vks, msg, m, sigs);
    }
  }

  lemma SmallerSet<T>(a: set<T>, b: set<T>)
    requires a <= b
    ensures |a| <= |b|
  {
    assert b == a + (b - a);
  }

  // ---- Co-signatures on heads, position by position -------------------------------------------------

  /** A co-signature shows a valid signature, under every scheme, exactly when it asks for one
      or brings more signatures than there are keys, which is never accepted. */
  lemma CosignedMeansSignedIff(vks: seq<Bytes>, msg: Bytes, cosig: Bytes)
    ensures (forall verify: VerifyFn ::
               QuorumAccepts(verify, vks, msg, cosig) ==> SomeoneSigned(verify, vks, msg, cosig))
            <==> Threshold(cosig) != 0 || |Signatures(cosig)| > |vks|
  {
    if Threshold(cosig) == 0 && |Signatures(cosig)| <= |vks| {
      assert QuorumAccepts(Never, vks, msg, cosig) && !SomeoneSigned(Never, vks, msg, cosig);
    } else {
      forall verify: VerifyFn | QuorumAccepts(verify, vks, msg, cosig)
        ensures SomeoneSigned(verify, vks, msg, cosig)
      {
        var decoded := DecodeQuorum(cosig);
        if decoded.Some? {
          OnePositionIsValid(verify, vks, msg, decoded.value.1, |decoded.value.1|);
        } else {
          assert cosig in Signatures(cosig) && vks[0] in vks;
        }
      }
    }
  }

  lemma {:induction false} OnePositionIsValid(verify: VerifyFn, vks: seq<Bytes>, msg: Bytes, sigs: seq<Opaque>, n: nat)
    requires n <= |sigs| <= |vks| && ValidPositions(verify, vks, msg, sigs, n) > 0
    ensures exists s :: s in sigs && C.AnyKey(verify, vks, msg, s)
  {
    if verify(vks[n - 1], msg, sigs[n - 1]) {
      assert sigs[n - 1] in sigs && vks[n - 1] in vks && C.AnyKey(verify, vks, msg, sigs[n - 1]);
    } else {
      OnePositionIsValid(verify, vks, msg, sigs, n - 1);
    }
  }

  /** The empty bundle co-signs anything, with or without keys. */
  lemma EmptyBundleCosigns(vks: seq<Bytes>, msg: Bytes)
    ensures QuorumAccepts(Never, vks, msg, EMPTY_BUNDLE)
  {
    EmptyBundleDecodes();
  }

  /** The keys of the valid positions below `n`. */
  function PositionSigners(verify: VerifyFn, vks: seq<Bytes>, msg: Bytes, sigs: seq<Opaque>, n: nat): (r: set<Bytes>)
    requires n <= |sigs| <= |vks|
  {
    if n == 0 then {}
    else
      PositionSigners(verify, vks, msg, sigs, n - 1) +
      (if verify(vks[n - 1], msg, sigs[n - 1]) then {vks[n - 1]} else {})
  }

  /** The keys a bundle can address are all different. */
  ghost predicate DifferentKeys(vks: seq<Bytes>) {
    forall i, j :: 0 <= i < j < Min(|vks|, 255) ==> vks[i] != vks[j]
  }

  lemma {:induction false} PositionSignersListed(verify: VerifyFn, vks: seq<Bytes>, msg: Bytes, sigs: seq<Opaque>,
                                                 n: nat)
    requires n <= |sigs| <= |vks|
    ensures forall vk :: vk in PositionSigners(verify, vks, msg, sigs, n) ==> vk in vks[..n]
  {
    if n > 0 {
      PositionSignersListed(verify, vks, msg, sigs, n - 1);
      assert vks[..n] == vks[..n - 1] + [vks[n - 1]];
    }
  }

  lemma {:induction false} PositionsCountSigners(verify: VerifyFn, vks: seq<Bytes>, msg: Bytes, sigs: seq<Opaque>,
                                                 n: nat)
    requires n <= |sigs| <= |vks| && n <= 255 && DifferentKeys(vks)
    ensures |PositionSigners(verify, vks, msg, sigs, n)| == ValidPositions(verify, vks, msg, sigs, n)
  {
    if n > 0 {
      PositionsCountSigners(verify, vks, msg, sigs, n - 1);
      PositionSignersListed(verify, vks, msg, sigs, n - 1);
      assert vks[n - 1] !in vks[..n - 1];
    }
  }

  ghost predicate PositionsShowSigners(verify: VerifyFn, vks: seq<Bytes>, msg: Bytes, m: byte, sigs: seq<Opaque>)
    requires |sigs| <= 255
  {
    QuorumAccepts(verify, vks, msg, EncodeQuorum(m, sigs)) ==>
      |sigs| <= |vks| && |PositionSigners(verify, vks, msg, sigs, |sigs|)| >= m as nat
  }

  /** Everything verifies. */
  function Always(key: Bytes, msg: Bytes, sig: Bytes): bool { true }

  lemma {:induction false} FewerSigners(vks: seq<Bytes>, msg: Bytes, sigs: seq<Opaque>, n: nat)
    requires n <= |sigs| <= |vks|
    ensures ValidPositions(Always, vks, msg, sigs, n) == n
    ensures |PositionSigners(Always, vks, msg, sigs, n)| <= n
    ensures forall i :: 0 <= i < n ==> vks[i] in PositionSigners(Always, vks, msg, sigs, n)
  {
    if n > 0 { FewerSigners(vks, msg, sigs, n - 1); }
  }

  lemma RepeatedKey(vks: seq<Bytes>, msg: Bytes, i: nat, j: nat)
    requires i < j < Min(|vks|, 255) && vks[i] == vks[j]
    ensures !PositionsShowSigners(Always, vks, msg, (j + 1) as byte, Repeat([], j + 1))
  {
    var sigs, m := Repeat([], j + 1), (j + 1) as byte;
    DecodeInvertsEncode(m, sigs);
    FewerSigners(vks, msg, sigs, j);
    FewerSigners(vks, msg, sigs, j + 1);
    var before := PositionSigners(Always, vks, msg, sigs, j);
    assert vks[j] in before && before + {vks[j]} == before;
  }

  /** Head co-signatures are matched to keys by position, so a threshold counts signers under
      every scheme exactly when no addressable key is listed twice. */
  lemma CosignersCountIff(vks: seq<Bytes>, msg: Bytes)
    ensures (forall verify: VerifyFn, m: byte, sigs: seq<Opaque> :: |sigs| <= 255 ==>
               PositionsShowSigners(verify, vks, msg, m, sigs))
            <==> DifferentKeys(vks)
  {
    if DifferentKeys(vks) {
      forall verify: VerifyFn, m: byte, sigs: seq<Opaque> | |sigs| <= 255
        ensures PositionsShowSigners(verify, vks, msg, m, sigs)
      {
        DecodeInvertsEncode(m, sigs);
        if |sigs| <= |vks| { PositionsCountSigners(verify, vks, msg, sigs, |sigs|); }
      }
    } else {
      var i, j :| 0 <= i < j < Min(|vks|, 255) && vks[i] == vks[j];
      RepeatedKey(vks, msg, i, j);
      assert !PositionsShowSigners(Always, vks, msg, (j + 1) as byte, Repeat([], j + 1));
    }
  }
}
