/** m-of-n admin authorizations: their wire form, their verification, and the
    transcripts they cover. */
module Quorum {
  import opened Bytes
  import opened Primitives
  import opened RefHeads

  const MAGIC: Bytes := [0x53, 0x48, 0x51, 0x31]

  datatype QuorumError = InvalidQuorum | SigTooLong | TooFewKeys | QuorumFailed | KeyRequired | BadSignature

  type VerifyFn = (Bytes, Bytes, Bytes) -> bool

  // ---- Wire form -------------------------------------------------------------------------

  function Frames(sigs: seq<Opaque>): Bytes {
    if sigs == [] then [] else Framed(sigs[0]) + Frames(sigs[1..])
  }

  predicate ValidQuorum(m: nat, sigs: seq<Bytes>) {
    1 <= m <= |sigs| <= 255
  }

  function EncodeQuorum(m: byte, sigs: seq<Opaque>): Bytes
    requires |sigs| <= 255
  {
    MAGIC + ([m] + ([|sigs| as byte] + Frames(sigs)))
  }

  method EncodeAdminQuorum(m: byte, sigs: seq<Bytes>) returns (r: Result<Bytes, QuorumError>)
    ensures !ValidQuorum(m as nat, sigs) ==> r == Err(InvalidQuorum)
    ensures ValidQuorum(m as nat, sigs) ==>
              (r.Ok? <==> forall s :: s in sigs ==> |s| < TWO_TO_32)
              && (r.Ok? ==> r.value == EncodeQuorum(m, sigs))
              && (r.Err? ==> r.error == SigTooLong)
  {
    if m == 0 || sigs == [] || m as nat > |sigs| || |sigs| > 255 { return Err(InvalidQuorum); }
    var out := MAGIC;
    out := out + [m];
    out := out + [|sigs| as byte];
    ghost var head := out;
    assert head == MAGIC + ([m] + [|sigs| as byte]);
    for i := 0 to |sigs|
      invariant forall j :: 0 <= j < i ==> |sigs[j]| < TWO_TO_32
      invariant out == head + Frames(sigs[..i])
    {
      if |sigs[i]| >= TWO_TO_32 { return Err(SigTooLong); }
      FramesAppend(sigs[..i], sigs[i]);
      assert sigs[..i + 1] == sigs[..i] + [sigs[i]];
      out := out + BE32(|sigs[i]|);
      out := out + sigs[i];
    }
    assert sigs[..|sigs|] == sigs;
    assert out == EncodeQuorum(m, sigs);
    r := Ok(out);
  }

  lemma {:induction false} FramesAppend(sigs: seq<Opaque>, s: Opaque)
    ensures Frames(sigs + [s]) == Frames(sigs) + Framed(s)
  {
    if sigs == [] {
      assert [s][1..] == [] && Frames([s]) == Framed(s) + Frames([]);
    } else {
      assert (sigs + [s])[1..] == sigs[1..] + [s];
      FramesAppend(sigs[1..], s);
      SumRegroup(Framed(sigs[0]), Frames(sigs[1..]), Framed(s));
    }
  }

  /** `n` frames that fill `rest` exactly. */
  function ParseFrames(rest: Bytes, n: nat): Option<seq<Opaque>> {
    if n == 0 then (if rest == [] then Some([]) else None)
    else
      var t := TakeOpaque(rest);
      if t.Err? then None else
      var more := ParseFrames(t.value.1, n - 1);
      if more.None? then None else Some([t.value.0] + more.value)
  }

  function DecodeQuorum(bytes: Bytes): Option<(byte, seq<Opaque>)> {
    if |bytes| < 6 || bytes[..4] != MAGIC then None else
      var sigs := ParseFrames(bytes[6..], bytes[5] as nat);
      if sigs.None? then None else Some((bytes[4], sigs.value))
  }

  method ReadFrames(bytes: Bytes, n: nat) returns (r: Option<seq<Opaque>>)
    ensures r == ParseFrames(bytes, n)
  {
    var rest := bytes;
    var sigs: seq<Opaque> := [];
    PrependNothing(ParseFrames(rest, n));
    for i := 0 to n
      invariant ParseFrames(bytes, n) == Prepend(sigs, ParseFrames(rest, n - i))
    {
      var t := TakeOpaque(rest);
      if t.Err? { return None; }
      PrependOne(sigs, t.value.0, ParseFrames(t.value.1, n - i - 1));
      sigs := sigs + [t.value.0];
      rest := t.value.1;
    }
    if rest != [] { return None; }
    assert sigs + [] == sigs;
    r := Some(sigs);
  }

  method DecodeAdminQuorum(bytes: Bytes) returns (r: Option<(byte, seq<Opaque>)>)
    ensures r == DecodeQuorum(bytes)
  {
    if |bytes| < 6 || bytes[..4] != MAGIC { return None; }
    var sigs := ReadFrames(bytes[6..], bytes[5] as nat);
    if sigs.None? { return None; }
    r := Some((bytes[4], sigs.value));
  }

  lemma PrependNothing(back: Option<seq<Opaque>>)
    ensures Prepend([], back) == back
  {
    if back.Some? { assert [] + back.value == back.value; }
  }

  ghost function Prepend(front: seq<Opaque>, back: Option<seq<Opaque>>): Option<seq<Opaque>> {
    if back.None? then None else Some(front + back.value)
  }

  lemma PrependOne(front: seq<Opaque>, s: Opaque, back: Option<seq<Opaque>>)
    ensures Prepend(front, if back.None? then None else Some([s] + back.value)) == Prepend(front + [s], back)
  {
    if back.Some? { assert front + ([s] + back.value) == front + [s] + back.value; }
  }

  lemma {:induction false} ParseInvertsFrames(sigs: seq<Opaque>)
    ensures ParseFrames(Frames(sigs), |sigs|) == Some(sigs)
  {
    if sigs != [] {
      TakeOpaqueInverts(sigs[0], Frames(sigs[1..]));
      ParseInvertsFrames(sigs[1..]);
      assert sigs == [sigs[0]] + sigs[1..];
    }
  }

  lemma {:induction false} FramesOfParse(rest: Bytes, n: nat)
    requires ParseFrames(rest, n).Some?
    ensures |ParseFrames(rest, n).value| == n && Frames(ParseFrames(rest, n).value) == rest
    decreases n
  {
    if n > 0 {
      var t := TakeOpaque(rest).value;
      FramesOfParse(t.1, n - 1);
      var sigs := ParseFrames(rest, n).value;
      assert sigs[1..] == ParseFrames(t.1, n - 1).value;
    }
  }

  /** Decoding inverts encoding on every bundle the encoder produces. */
  lemma DecodeInvertsEncode(m: byte, sigs: seq<Opaque>)
    requires |sigs| <= 255
    ensures DecodeQuorum(EncodeQuorum(m, sigs)) == Some((m, sigs))
  {
    var b := EncodeQuorum(m, sigs);
    assert b[..4] == MAGIC && b[4] == m && b[5] == |sigs| as byte && b[6..] == Frames(sigs);
    ParseInvertsFrames(sigs);
  }

  /** A decoded bundle is the encoding of what it decodes to, and the encoder would accept
      it exactly when its threshold is between one and its number of signatures. */
  lemma EncodeInvertsDecode(bytes: Bytes)
    requires DecodeQuorum(bytes).Some?
    ensures var (m, sigs) := DecodeQuorum(bytes).value;
            && |sigs| == bytes[5] as nat && EncodeQuorum(m, sigs) == bytes
            && (ValidQuorum(m as nat, sigs) <==> 1 <= bytes[4] <= bytes[5])
  {
    FramesOfParse(bytes[6..], bytes[5] as nat);
    assert bytes == bytes[..4] + ([bytes[4]] + ([bytes[5]] + bytes[6..]));
  }

  // ---- Verification -------------------------------------------------------------------------

  /** How many of the positions below `n` verify under their own key. */
  function ValidPositions(verify: VerifyFn, vks: seq<Bytes>, msg: Bytes, sigs: seq<Opaque>, n: nat): (k: nat)
    requires n <= |sigs| <= |vks|
    ensures k <= n
  {
    if n == 0 then 0
    else ValidPositions(verify, vks, msg, sigs, n - 1) + (if verify(vks[n - 1], msg, sigs[n - 1]) then 1 else 0)
  }

  function SaturatingInc(k: byte): byte { if k == 255 then 255 else k + 1 }

  predicate QuorumAccepts(verify: VerifyFn, vks: seq<Bytes>, msg: Bytes, cosig: Bytes) {
    var decoded := DecodeQuorum(cosig);
    if decoded.Some? then
      var m, sigs := decoded.value.0, decoded.value.1;
      |sigs| <= |vks| && ValidPositions(verify, vks, msg, sigs, |sigs|) >= m as nat
    else vks != [] && verify(vks[0], msg, cosig)
  }

  /** Accepts a bundle exactly when there are keys for all its signatures and at least the
      threshold verify position by position; the 8-bit counter never saturates below it.
      Bytes that are no bundle count as one signature under the first key. */
  method AdminQuorumVerify(verify: VerifyFn, vks: seq<Bytes>, msg: Bytes, cosig: Bytes)
    returns (r: Result<(), QuorumError>)
    ensures r.Ok? <==> QuorumAccepts(verify, vks, msg, cosig)
  {
    var decoded := DecodeAdminQuorum(cosig);
    if decoded.Some? {
      var (m, sigs) := decoded.value;
      if |vks| < |sigs| { return Err(TooFewKeys); }
      EncodeInvertsDecode(cosig);
      var ok: byte := 0;
      for i := 0 to |sigs|
        invariant ok as nat == ValidPositions(verify, vks, msg, sigs, i)
      {
        if verify(vks[i], msg, sigs[i]) { ok := SaturatingInc(ok); }
      }
      if ok < m { return Err(QuorumFailed); }
      return Ok(());
    }
    if vks == [] { return Err(KeyRequired); }
    r := if verify(vks[0], msg, cosig) then Ok(()) else Err(BadSignature);
  }

  // ---- The co-signature transcript -----------------------------------------------------------

  datatype Cosigned = Cosigned(repoId: Bytes32, epoch: u64, op: Opaque, seqNo: u64, prev: Digest,
                               refsDigest: Digest, rosterDigest: Digest, policy: u32)

  function CosigMessage(c: Cosigned): Bytes {
    DomainLabel("admin-cosig") + (c.repoId + (LE64(c.epoch) + (LE32(|c.op|) + (c.op + (LE64(c.seqNo) +
    (c.prev + (c.refsDigest + (c.rosterDigest + LE32(c.policy)))))))))
  }

  method AdminCosigMessage(c: Cosigned) returns (msg: Bytes)
    ensures msg == CosigMessage(c)
  {
    msg := DomainLabel("admin-cosig");
    msg := msg + c.repoId;
    msg := msg + LE64(c.epoch);
    msg := msg + LE32(|c.op|);
    msg := msg + c.op;
    msg := msg + LE64(c.seqNo);
    msg := msg + c.prev;
    msg := msg + c.refsDigest;
    msg := msg + c.rosterDigest;
    msg := msg + LE32(c.policy);
  }

  lemma CosigFront(c: Cosigned)
    ensures var b, at := CosigMessage(c), 66 + |c.op|;
            && |b| >= at && b[..22] == Ascii("safehub-v1:admin-cosig") && b[22..54] == c.repoId
            && b[54..62] == LE64(c.epoch) && b[62..66] == LE32(|c.op|) && b[66..at] == c.op
            && b[at..] == LE64(c.seqNo) + (c.prev + (c.refsDigest + (c.rosterDigest + LE32(c.policy))))
  {
    assert "safehub-v1:" + "admin-cosig" == "safehub-v1:admin-cosig";
    var b, back := CosigMessage(c), LE64(c.seqNo) + (c.prev + (c.refsDigest + (c.rosterDigest + LE32(c.policy))));
    assert b[0..] == b;
    DropPart(b, 0, Ascii("safehub-v1:admin-cosig"), c.repoId + (LE64(c.epoch) + (LE32(|c.op|) + (c.op + back))));
    DropPart(b, 22, c.repoId, LE64(c.epoch) + (LE32(|c.op|) + (c.op + back)));
    DropPart(b, 54, LE64(c.epoch), LE32(|c.op|) + (c.op + back));
    DropPart(b, 62, LE32(|c.op|), c.op + back);
    DropPart(b, 66, c.op, back);
  }

  lemma CosigBack(b: Bytes, at: nat, c: Cosigned)
    requires at <= |b| && b[at..] == LE64(c.seqNo) + (c.prev + (c.refsDigest + (c.rosterDigest + LE32(c.policy))))
    ensures |b| == at + 204 && b[at..at + 8] == LE64(c.seqNo) && b[at + 8..at + 72] == c.prev
    ensures b[at + 72..at + 136] == c.refsDigest && b[at + 136..at + 200] == c.rosterDigest
    ensures b[at + 200..] == LE32(c.policy)
  {
    DropPart(b, at, LE64(c.seqNo), c.prev + (c.refsDigest + (c.rosterDigest + LE32(c.policy))));
    DropPart(b, at + 8, c.prev, c.refsDigest + (c.rosterDigest + LE32(c.policy)));
    DropPart(b, at + 72, c.refsDigest, c.rosterDigest + LE32(c.policy));
    DropPart(b, at + 136, c.rosterDigest, LE32(c.policy));
  }

  lemma CosigMessageLayout(c: Cosigned)
    ensures var b, at := CosigMessage(c), 66 + |c.op|;
            && |b| == at + 204 && b[..22] == Ascii("safehub-v1:admin-cosig") && b[22..54] == c.repoId
            && b[54..62] == LE64(c.epoch) && b[62..66] == LE32(|c.op|) && b[66..at] == c.op
            && b[at..at + 8] == LE64(c.seqNo) && b[at + 8..at + 72] == c.prev && b[at + 72..at + 136] == c.refsDigest
            && b[at + 136..at + 200] == c.rosterDigest && b[at + 200..] == LE32(c.policy)
  {
    CosigFront(c);
    CosigBack(CosigMessage(c), 66 + |c.op|, c);
  }

  /** The transcript determines every field, the free-length operation name included. */
  lemma CosigMessageInjective(a: Cosigned, b: Cosigned)
    requires CosigMessage(a) == CosigMessage(b)
    ensures a == b
  {
    var a4, b4 := a.op + (LE64(a.seqNo) + (a.prev + (a.refsDigest + (a.rosterDigest + LE32(a.policy))))),
                  b.op + (LE64(b.seqNo) + (b.prev + (b.refsDigest + (b.rosterDigest + LE32(b.policy)))));
    var a3, b3 := LE32(|a.op|) + a4, LE32(|b.op|) + b4;
    SplitEqual(DomainLabel("admin-cosig"), a.repoId + (LE64(a.epoch) + a3),
               DomainLabel("admin-cosig"), b.repoId + (LE64(b.epoch) + b3));
    SplitEqual(a.repoId, LE64(a.epoch) + a3, b.repoId, LE64(b.epoch) + b3);
    SplitEqual(LE64(a.epoch), a3, LE64(b.epoch), b3);
    LE64Injective(a.epoch, b.epoch);
    SplitEqual(LE32(|a.op|), a4, LE32(|b.op|), b4);
    LE32Injective(|a.op|, |b.op|);
    CosigTailInjective(a, b);
  }

  lemma CosigTailInjective(a: Cosigned, b: Cosigned)
    requires |a.op| == |b.op|
    requires a.op + (LE64(a.seqNo) + (a.prev + (a.refsDigest + (a.rosterDigest + LE32(a.policy)))))
          == b.op + (LE64(b.seqNo) + (b.prev + (b.refsDigest + (b.rosterDigest + LE32(b.policy)))))
    ensures a.op == b.op && a.seqNo == b.seqNo && a.prev == b.prev && a.refsDigest == b.refsDigest
    ensures a.rosterDigest == b.rosterDigest && a.policy == b.policy
  {
    var a1, b1 := a.rosterDigest + LE32(a.policy), b.rosterDigest + LE32(b.policy);
    var a2, b2 := a.refsDigest + a1, b.refsDigest + b1;
    var a3, b3 := a.prev + a2, b.prev + b2;
    SplitEqual(a.op, LE64(a.seqNo) + a3, b.op, LE64(b.seqNo) + b3);
    SplitEqual(LE64(a.seqNo), a3, LE64(b.seqNo), b3);
    LE64Injective(a.seqNo, b.seqNo);
    SplitEqual(a.prev, a2, b.prev, b2);
    SplitEqual(a.refsDigest, a1, b.refsDigest, b1);
    SplitEqual(a.rosterDigest, LE32(a.policy), b.rosterDigest, LE32(b.policy));
    LE32Injective(a.policy, b.policy);
  }

  // ---- The roster digest ----------------------------------------------------------------------

  /** Byte strings in dictionary order. */
  predicate LexLe(a: Bytes, b: Bytes) {
    a == [] || (b != [] && (a[0] < b[0] || (a[0] == b[0] && LexLe(a[1..], b[1..]))))
  }

  lemma {:induction false} LexTotal(a: Bytes, b: Bytes)
    ensures LexLe(a, b) || LexLe(b, a)
    ensures LexLe(a, b) && LexLe(b, a) ==> a == b
  {
    if a != [] && b != [] && a[0] == b[0] {
      LexTotal(a[1..], b[1..]);
      assert a == [a[0]] + a[1..] && b == [b[0]] + b[1..];
    }
  }

  lemma {:induction false} LexTransitive(a: Bytes, b: Bytes, c: Bytes)
    requires LexLe(a, b) && LexLe(b, c)
    ensures LexLe(a, c)
  {
    if a != [] && a[0] == b[0] == c[0] { LexTransitive(a[1..], b[1..], c[1..]); }
  }

  ghost predicate LexSorted(keys: seq<Bytes>) {
    forall i, j :: 0 <= i <= j < |keys| ==> LexLe(keys[i], keys[j])
  }

  function InsertKey(k: Bytes, keys: seq<Bytes>): (r: seq<Bytes>)
    ensures multiset(r) == multiset(keys) + multiset{k}
  {
    if keys == [] || LexLe(k, keys[0]) then [k] + keys
    else
      assert keys == [keys[0]] + keys[1..];
      [keys[0]] + InsertKey(k, keys[1..])
  }

  function SortKeys(keys: seq<Bytes>): (r: seq<Bytes>)
    ensures multiset(r) == multiset(keys)
  {
    if keys == [] then [] else
      assert keys == [keys[0]] + keys[1..];
      InsertKey(keys[0], SortKeys(keys[1..]))
  }

  lemma {:induction false} InsertKeySorts(k: Bytes, keys: seq<Bytes>)
    requires LexSorted(keys)
    ensures LexSorted(InsertKey(k, keys))
  {
    LexTotal(k, k);
    if keys != [] {
      LexTotal(k, keys[0]);
      if LexLe(k, keys[0]) {
        forall j | 0 <= j < |keys|
          ensures LexLe(k, keys[j])
        {
          LexTransitive(k, keys[0], keys[j]);
        }
      } else {
        InsertKeySorts(k, keys[1..]);
        var rest := InsertKey(k, keys[1..]);
        forall x | x in rest
          ensures LexLe(keys[0], x)
        {
          assert x in multiset(rest);
        }
        LexTotal(keys[0], keys[0]);
      }
    }
  }

  lemma {:induction false} SortKeysSorts(keys: seq<Bytes>)
    ensures LexSorted(SortKeys(keys))
  {
    if keys != [] {
      SortKeysSorts(keys[1..]);
      InsertKeySorts(keys[0], SortKeys(keys[1..]));
    }
  }

  /** Sorted sequences with the same members, counted, are equal. */
  lemma {:induction false} SortedPermutationsEqual(a: seq<Bytes>, b: seq<Bytes>)
    requires LexSorted(a) && LexSorted(b) && multiset(a) == multiset(b)
    ensures a == b
  {
    assert |multiset(a)| == |a| && |multiset(b)| == |b|;
    if a != [] {
      assert a[0] in multiset(b) && b[0] in multiset(a);
      LexTotal(a[0], b[0]);
      assert a == [a[0]] + a[1..] && b == [b[0]] + b[1..];
      assert multiset(a[1..]) == multiset(a) - multiset{a[0]};
      assert multiset(b[1..]) == multiset(b) - multiset{b[0]};
      SortedPermutationsEqual(a[1..], b[1..]);
    }
  }

  function KeyFrames(keys: seq<Bytes>): Bytes {
    if keys == [] then [] else LE32(Low32(|keys[0]|)) + (keys[0] + KeyFrames(keys[1..]))
  }

  ghost predicate Short(keys: seq<Bytes>) { |keys| < TWO_TO_32 && forall k :: k in keys ==> |k| < TWO_TO_32 }

  lemma ShortParts(keys: seq<Bytes>)
    requires Short(keys) && keys != []
    ensures |keys[0]| < TWO_TO_32 && Short(keys[1..])
    ensures KeyFrames(keys) == LE32(|keys[0]|) + (keys[0] + KeyFrames(keys[1..]))
  {
    assert forall k :: k in keys[1..] ==> k in keys;
  }

  lemma FirstKeyEqual(a: Bytes, x: Bytes, b: Bytes, y: Bytes)
    requires |a| < TWO_TO_32 && |b| < TWO_TO_32 && LE32(|a|) + (a + x) == LE32(|b|) + (b + y)
    ensures a == b && x == y
  {
    SplitEqual(LE32(|a|), a + x, LE32(|b|), b + y);
    LE32Injective(|a|, |b|);
    SplitEqual(a, x, b, y);
  }

  lemma {:induction false} KeyFramesInjective(a: seq<Bytes>, b: seq<Bytes>)
    requires Short(a) && Short(b) && |a| == |b| && KeyFrames(a) == KeyFrames(b)
    ensures a == b
  {
    if a != [] {
      ShortParts(a);
      ShortParts(b);
      FirstKeyEqual(a[0], KeyFrames(a[1..]), b[0], KeyFrames(b[1..]));
      KeyFramesInjective(a[1..], b[1..]);
      assert a == [a[0]] + a[1..] && b == [b[0]] + b[1..];
    }
  }

  /** The bytes that the roster digest hashes. */
  function RosterInput(keys: seq<Bytes>): Bytes {
    DomainLabel("roster-digest") + (LE32(Low32(|keys|)) + KeyFrames(SortKeys(keys)))
  }

  method AppendKeys(start: Bytes, keys: seq<Bytes>) returns (out: Bytes)
    ensures out == start + KeyFrames(keys)
  {
    out := start;
    assert keys[0..] == keys;
    for i := 0 to |keys|
      invariant out + KeyFrames(keys[i..]) == start + KeyFrames(keys)
    {
      var vk := keys[i];
      assert keys[i..][1..] == keys[i + 1..];
      ghost var before := out;
      out := out + LE32(Low32(|vk|));
      out := out + vk;
      assert out + KeyFrames(keys[i + 1..]) == before + (LE32(Low32(|vk|)) + (vk + KeyFrames(keys[i + 1..])));
    }
    assert out + [] == out;
  }

  method RosterTranscript(keys: seq<Bytes>) returns (out: Bytes)
    ensures out == RosterInput(keys)
  {
    var sorted := SortKeys(keys);
    SortKeepsKeys(keys);
    out := DomainLabel("roster-digest") + LE32(Low32(|sorted|));
    out := AppendKeys(out, sorted);
    SumRegroup(DomainLabel("roster-digest"), LE32(Low32(|sorted|)), KeyFrames(sorted));
  }

  lemma SortKeepsKeys(keys: seq<Bytes>)
    ensures |SortKeys(keys)| == |keys| && (forall k :: k in SortKeys(keys) <==> k in keys)
  {
    var sorted := SortKeys(keys);
    assert |multiset(sorted)| == |sorted| && |multiset(keys)| == |keys|;
    assert forall k :: k in sorted <==> k in multiset(sorted);
  }

  lemma SumRegroup(a: Bytes, b: Bytes, c: Bytes)
    ensures (a + b) + c == a + (b + c)
  {
  }

  lemma SortForgetsOrder(a: seq<Bytes>, b: seq<Bytes>)
    requires multiset(a) == multiset(b)
    ensures SortKeys(a) == SortKeys(b) && |a| == |b|
  {
    assert |multiset(a)| == |a| && |multiset(b)| == |b|;
    SortKeysSorts(a);
    SortKeysSorts(b);
    SortedPermutationsEqual(SortKeys(a), SortKeys(b));
  }

  lemma ShortSorted(keys: seq<Bytes>)
    requires Short(keys)
    ensures Short(SortKeys(keys)) && |SortKeys(keys)| == |keys|
    ensures RosterInput(keys) == DomainLabel("roster-digest") + (LE32(|keys|) + KeyFrames(SortKeys(keys)))
  {
    SortKeepsKeys(keys);
  }

  lemma RosterInputInjective(a: seq<Bytes>, b: seq<Bytes>)
    requires Short(a) && Short(b) && RosterInput(a) == RosterInput(b)
    ensures multiset(a) == multiset(b)
  {
    var tag, fa, fb := DomainLabel("roster-digest"), KeyFrames(SortKeys(a)), KeyFrames(SortKeys(b));
    ShortSorted(a);
    ShortSorted(b);
    SplitEqual(tag, LE32(|a|) + fa, tag, LE32(|b|) + fb);
    SplitEqual(LE32(|a|), fa, LE32(|b|), fb);
    LE32Injective(|a|, |b|);
    KeyFramesInjective(SortKeys(a), SortKeys(b));
  }

  lemma TwoSorted(a: Bytes, b: Bytes)
    requires a != [] && b != [] && a[0] < b[0]
    ensures SortKeys([a, b]) == [a, b]
  {
    assert [a, b][1..] == [b] && [b][1..] == [];
    assert SortKeys([b]) == [b];
  }

  /** The hashed roster lists its keys in dictionary order, each after its length. */
  lemma RosterOfTwo(a: Bytes, b: Bytes)
    requires a != [] && b != [] && a[0] < b[0] && |a| < TWO_TO_32 && |b| < TWO_TO_32
    ensures RosterInput([b, a]) == RosterInput([a, b])
    ensures RosterInput([a, b]) == DomainLabel("roster-digest") + (LE32(2) + (LE32(|a|) + (a + (LE32(|b|) + b))))
  {
    TwoSorted(a, b);
    assert multiset([a, b]) == multiset([b, a]);
    RosterInputIsMultiset([a, b], [b, a]);
    TwoFrames(a, b);
  }

  lemma TwoFrames(a: Bytes, b: Bytes)
    requires |a| < TWO_TO_32 && |b| < TWO_TO_32
    ensures KeyFrames([a, b]) == LE32(|a|) + (a + (LE32(|b|) + b))
  {
    assert [a, b][1..] == [b] && [b][1..] == [] && KeyFrames([]) == [];
    assert KeyFrames([b]) == LE32(|b|) + (b + []) && b + [] == b;
  }

  /** Permuting a roster never changes the hashed bytes, and while counts and lengths fit
      their 32-bit prefixes nothing else leaves them equal. */
  lemma RosterInputIsMultiset(a: seq<Bytes>, b: seq<Bytes>)
    ensures multiset(a) == multiset(b) ==> RosterInput(a) == RosterInput(b)
    ensures Short(a) && Short(b) && RosterInput(a) == RosterInput(b) ==> multiset(a) == multiset(b)
  {
    if multiset(a) == multiset(b) { SortForgetsOrder(a, b); }
    if Short(a) && Short(b) && RosterInput(a) == RosterInput(b) { RosterInputInjective(a, b); }
  }
}
