/** The ref-head record, its canonical TLS-presentation bytes, and the two
    independent decoders of those bytes. */
module RefHeads {
  import opened Bytes
  import opened Primitives

  datatype RefHead = RefHead(
    repoId: Bytes32,
    seqNo: u64,
    encRefs: Opaque,
    bundleRoot: Digest,
    dekWrap: Opaque,
    prev: Digest,
    epoch: u64,
    epochTag: Opaque,
    nonFf: bool,
    pusherSig: Opaque,
    adminCosig: Option<Opaque>)

  datatype DecodeError = Truncated | TrailingBytes

  // ---- Layout --------------------------------------------------------------

  function Framed(x: Opaque): (b: Bytes)
    ensures |b| == 4 + |x|
  {
    BE32(|x|) + x
  }

  /** The frame of `x` stands at `at`: its big-endian length, then its bytes. */
  predicate FramedAt(b: Bytes, at: nat, x: Opaque) {
    |b| >= at + 4 + |x| && b[at..at + 4] == BE32(|x|) && b[at + 4..at + 4 + |x|] == x
  }

  lemma FramedIn(b: Bytes, at: nat, x: Opaque, rest: Bytes)
    requires at <= |b| && b[at..] == Framed(x) + rest
    ensures FramedAt(b, at, x)
  {
    InMiddle(b, at, BE32(|x|), x, rest);
  }

  lemma InMiddle(b: Bytes, at: nat, p: Bytes, q: Bytes, rest: Bytes)
    requires at <= |b| && b[at..] == p + q + rest
    ensures |b| >= at + |p| + |q| && b[at..at + |p|] == p && b[at + |p|..at + |p| + |q|] == q
  {
    var s := b[at..];
    assert s[..|p|] == p && s[|p|..|p| + |q|] == q;
    assert b[at..at + |p|] == s[..|p|] && b[at + |p|..at + |p| + |q|] == s[|p|..|p| + |q|];
  }

  function CosigPart(h: RefHead): Bytes {
    match h.adminCosig
    case None => []
    case Some(sig) => Framed(sig)
  }

  /** The wire form of `h`, field after field, with the two flag bytes given. */
  function Layout(h: RefHead, ffFlag: byte, cosigFlag: byte): Bytes {
    h.repoId + BE64(h.seqNo) + Framed(h.encRefs) + h.bundleRoot + Framed(h.dekWrap) + h.prev +
    BE64(h.epoch) + Framed(h.epochTag) + [ffFlag] + Framed(h.pusherSig) + [cosigFlag] + CosigPart(h)
  }

  function Flag(b: bool): byte { if b then 1 else 0 }

  predicate FlagsMatch(h: RefHead, ffFlag: byte, cosigFlag: byte) {
    h.nonFf == (ffFlag != 0) && h.adminCosig.Some? == (cosigFlag != 0)
  }

  function Encode(h: RefHead): Bytes {
    Layout(h, Flag(h.nonFf), Flag(h.adminCosig.Some?))
  }

  function HeadHash(sha: Bytes -> Digest, h: RefHead): Digest { sha(Encode(h)) }

  method EncodeRefHead(h: RefHead) returns (out: Bytes)
    ensures out == Encode(h)
  {
    out := h.repoId;
    out := out + BE64(h.seqNo);
    out := out + Framed(h.encRefs);
    out := out + h.bundleRoot;
    out := out + Framed(h.dekWrap);
    out := out + h.prev;
    out := out + BE64(h.epoch);
    out := out + Framed(h.epochTag);
    out := out + [if h.nonFf then 1 else 0];
    out := out + Framed(h.pusherSig);
    match h.adminCosig {
      case Some(sig) =>
        out := out + [1];
        out := out + Framed(sig);
      case None =>
        out := out + [0];
        assert out + [] == out;
    }
  }

  // ---- Decoding ------------------------------------------------------------

  function Take(buf: Bytes, n: nat): (r: Result<(Bytes, Bytes), DecodeError>)
    ensures r.Ok? <==> n <= |buf|
    ensures r.Ok? ==> |r.value.0| == n && buf == r.value.0 + r.value.1
  {
    if |buf| < n then Err(Truncated) else Ok((buf[..n], buf[n..]))
  }

  function TakeOpaque(buf: Bytes): (r: Result<(Opaque, Bytes), DecodeError>)
    ensures r.Ok? ==> buf == Framed(r.value.0) + r.value.1
  {
    var (prefix, rest) :- Take(buf, 4);
    WidthBounds();
    var (body, tail) :- Take(rest, FromBigEndian(prefix));
    BigEndianReencodes(prefix);
    assert buf == Framed(body) + tail;
    Ok((body, tail))
  }

  lemma TakeInverts(x: Bytes, tail: Bytes)
    ensures Take(x + tail, |x|) == Ok((x, tail))
  {
    assert (x + tail)[..|x|] == x && (x + tail)[|x|..] == tail;
  }

  lemma TakeOpaqueInverts(x: Opaque, tail: Bytes)
    ensures TakeOpaque(Framed(x) + tail) == Ok((x, tail))
  {
    WidthBounds();
    BigEndianDecodes(|x|, 4);
    assert Framed(x) + tail == BE32(|x|) + (x + tail);
    TakeInverts(BE32(|x|), x + tail);
    TakeInverts(x, tail);
  }

  lemma TakeU64Inverts(n: u64, tail: Bytes)
    ensures Take(BE64(n) + tail, 8) == Ok((BE64(n), tail))
    ensures FromBigEndian(BE64(n)) == n
  {
    WidthBounds();
    BigEndianDecodes(n, 8);
    TakeInverts(BE64(n), tail);
  }

  function ToU64(b: Bytes): (n: u64)
    requires |b| == 8
    ensures BE64(n) == b
  {
    WidthBounds();
    BigEndianReencodes(b);
    FromBigEndian(b)
  }

  datatype Front = Front(repoId: Bytes32, seqNo: u64, encRefs: Opaque)
  datatype Middle = Middle(bundleRoot: Digest, dekWrap: Opaque, prev: Digest)
  datatype Stamp = Stamp(epoch: u64, epochTag: Opaque, nonFf: bool)
  datatype Sigs = Sigs(pusherSig: Opaque, adminCosig: Option<Opaque>)

  function DecodeFront(b: Bytes): Result<(Front, Bytes), DecodeError> {
    var (repo, b1) :- Take(b, 32);
    var (seqNo, b2) :- Take(b1, 8);
    var (refs, b3) :- TakeOpaque(b2);
    Ok((Front(repo, ToU64(seqNo), refs), b3))
  }

  function DecodeMiddle(b: Bytes): Result<(Middle, Bytes), DecodeError> {
    var (root, b1) :- Take(b, 64);
    var (wrap, b2) :- TakeOpaque(b1);
    var (prev, b3) :- Take(b2, 64);
    Ok((Middle(root, wrap, prev), b3))
  }

  function DecodeCosig(b: Bytes): Result<Option<Opaque>, DecodeError> {
    var (has, b1) :- Take(b, 1);
    if has[0] == 0 then
      if b1 != [] then Err(TrailingBytes) else Ok(None)
    else
      var (cosig, b2) :- TakeOpaque(b1);
      if b2 != [] then Err(TrailingBytes) else Ok(Some(cosig))
  }

  function DecodeStamp(b: Bytes): Result<(Stamp, Bytes), DecodeError> {
    var (epoch, b1) :- Take(b, 8);
    var (tag, b2) :- TakeOpaque(b1);
    var (ff, b3) :- Take(b2, 1);
    Ok((Stamp(ToU64(epoch), tag, ff[0] != 0), b3))
  }

  function DecodeSigs(b: Bytes): Result<Sigs, DecodeError> {
    var (sig, b1) :- TakeOpaque(b);
    var cosig :- DecodeCosig(b1);
    Ok(Sigs(sig, cosig))
  }

  function Join(f: Front, m: Middle, t: Stamp, s: Sigs): RefHead {
    RefHead(f.repoId, f.seqNo, f.encRefs, m.bundleRoot, m.dekWrap, m.prev, t.epoch, t.epochTag, t.nonFf,
            s.pusherSig, s.adminCosig)
  }

  /** The record `b` stands for. */
  function Decode(b: Bytes): Result<RefHead, DecodeError> {
    var (front, b1) :- DecodeFront(b);
    var (middle, b2) :- DecodeMiddle(b1);
    var (stamp, b3) :- DecodeStamp(b2);
    var sigs :- DecodeSigs(b3);
    Ok(Join(front, middle, stamp, sigs))
  }

  // ---- Decoding inverts the layout -------------------------------------------

  /** The wire form grouped from the right, as a decoder consumes it. */
  function NestedBack(h: RefHead, ffFlag: byte, cosigFlag: byte): Bytes {
    BE64(h.epoch) + (Framed(h.epochTag) + ([ffFlag] + (Framed(h.pusherSig) + ([cosigFlag] + CosigPart(h)))))
  }

  function Nested(h: RefHead, ffFlag: byte, cosigFlag: byte): Bytes {
    h.repoId + (BE64(h.seqNo) + (Framed(h.encRefs) + (h.bundleRoot +
    (Framed(h.dekWrap) + (h.prev + NestedBack(h, ffFlag, cosigFlag))))))
  }

  lemma Regroup(a: Bytes, b: Bytes, c: Bytes, d: Bytes, e: Bytes, f: Bytes)
    ensures a + b + c + d + e + f == a + (b + (c + (d + (e + f))))
  {
    assert d + e + f == d + (e + f);
    assert c + d + e + f == c + (d + e + f);
    assert b + c + d + e + f == b + (c + d + e + f);
    assert a + b + c + d + e + f == a + (b + c + d + e + f);
  }

  lemma LayoutNested(h: RefHead, ffFlag: byte, cosigFlag: byte)
    ensures Layout(h, ffFlag, cosigFlag) == Nested(h, ffFlag, cosigFlag)
  {
    var front := h.repoId + BE64(h.seqNo) + Framed(h.encRefs) + h.bundleRoot + Framed(h.dekWrap);
    var back := NestedBack(h, ffFlag, cosigFlag);
    var tail := [cosigFlag] + CosigPart(h);
    Regroup(front + h.prev, BE64(h.epoch), Framed(h.epochTag), [ffFlag], Framed(h.pusherSig), tail);
    assert Layout(h, ffFlag, cosigFlag)
        == front + h.prev + BE64(h.epoch) + Framed(h.epochTag) + [ffFlag] + Framed(h.pusherSig) + tail;
    assert front + h.prev + back == front + (h.prev + back);
    Regroup(h.repoId, BE64(h.seqNo), Framed(h.encRefs), h.bundleRoot, Framed(h.dekWrap), h.prev + back);
  }

  /** The wire form from the signatures on. */
  function NestedSigs(h: RefHead, cosigFlag: byte): Bytes {
    Framed(h.pusherSig) + ([cosigFlag] + CosigPart(h))
  }

  lemma StampDecodes(h: RefHead, ffFlag: byte, rest: Bytes)
    requires h.nonFf == (ffFlag != 0)
    ensures DecodeStamp(BE64(h.epoch) + (Framed(h.epochTag) + ([ffFlag] + rest)))
         == Ok((Stamp(h.epoch, h.epochTag, h.nonFf), rest))
  {
    TakeU64Inverts(h.epoch, Framed(h.epochTag) + ([ffFlag] + rest));
    TakeOpaqueInverts(h.epochTag, [ffFlag] + rest);
    TakeInverts([ffFlag], rest);
  }

  lemma SigsDecode(h: RefHead, cosigFlag: byte)
    requires h.adminCosig.Some? == (cosigFlag != 0)
    ensures DecodeSigs(NestedSigs(h, cosigFlag)) == Ok(Sigs(h.pusherSig, h.adminCosig))
  {
    TakeOpaqueInverts(h.pusherSig, [cosigFlag] + CosigPart(h));
    TakeInverts([cosigFlag], CosigPart(h));
    if h.adminCosig.Some? {
      TakeOpaqueInverts(h.adminCosig.value, []);
      assert Framed(h.adminCosig.value) + [] == CosigPart(h);
    }
  }

  /** Every wire form of `h`, canonical or not, decodes to `h`. */
  lemma DecodesLayout(h: RefHead, ffFlag: byte, cosigFlag: byte)
    requires FlagsMatch(h, ffFlag, cosigFlag)
    ensures Decode(Layout(h, ffFlag, cosigFlag)) == Ok(h)
  {
    LayoutNested(h, ffFlag, cosigFlag);
    var b6 := NestedBack(h, ffFlag, cosigFlag);
    var b5 := h.prev + b6;
    var b4 := Framed(h.dekWrap) + b5;
    var b3 := h.bundleRoot + b4;
    var b2 := Framed(h.encRefs) + b3;
    TakeInverts(h.repoId, BE64(h.seqNo) + b2);
    TakeU64Inverts(h.seqNo, b2);
    TakeOpaqueInverts(h.encRefs, b3);
    TakeInverts(h.bundleRoot, b4);
    TakeOpaqueInverts(h.dekWrap, b5);
    TakeInverts(h.prev, b6);
    StampDecodes(h, ffFlag, NestedSigs(h, cosigFlag));
    SigsDecode(h, cosigFlag);
  }

  lemma DecodedFront(b: Bytes)
    requires DecodeFront(b).Ok?
    ensures var f, rest := DecodeFront(b).value.0, DecodeFront(b).value.1;
            b == f.repoId + (BE64(f.seqNo) + (Framed(f.encRefs) + rest))
  {
  }

  lemma DecodedMiddle(b: Bytes)
    requires DecodeMiddle(b).Ok?
    ensures var m, rest := DecodeMiddle(b).value.0, DecodeMiddle(b).value.1;
            b == m.bundleRoot + (Framed(m.dekWrap) + (m.prev + rest))
  {
  }

  /** The flag bytes a decoder met on the way to `Decode(b)`. */
  lemma DecodedLayout(b: Bytes) returns (ffFlag: byte, cosigFlag: byte)
    requires Decode(b).Ok?
    ensures FlagsMatch(Decode(b).value, ffFlag, cosigFlag)
    ensures b == Layout(Decode(b).value, ffFlag, cosigFlag)
  {
    var h := Decode(b).value;
    var b3 := DecodeFront(b).value.1;
    var b6 := DecodeMiddle(b3).value.1;
    var b9 := DecodeStamp(b6).value.1;
    ffFlag := DecodedStamp(h, b6, b9);
    cosigFlag := DecodedSigs(h, b9);
    DecodedFront(b);
    DecodedMiddle(b3);
    LayoutNested(h, ffFlag, cosigFlag);
  }

  lemma DecodedStamp(h: RefHead, b: Bytes, rest: Bytes) returns (ffFlag: byte)
    requires DecodeStamp(b) == Ok((Stamp(h.epoch, h.epochTag, h.nonFf), rest))
    ensures h.nonFf == (ffFlag != 0) && b == BE64(h.epoch) + (Framed(h.epochTag) + ([ffFlag] + rest))
  {
    var b2 := TakeOpaque(Take(b, 8).value.1).value.1;
    ffFlag := b2[0];
    assert Take(b2, 1).value.0 == [ffFlag];
  }

  lemma DecodedSigs(h: RefHead, b: Bytes) returns (cosigFlag: byte)
    requires DecodeSigs(b) == Ok(Sigs(h.pusherSig, h.adminCosig))
    ensures h.adminCosig.Some? == (cosigFlag != 0) && b == NestedSigs(h, cosigFlag)
  {
    var b1 := TakeOpaque(b).value.1;
    cosigFlag := b1[0];
    assert Take(b1, 1).value.0 == [cosigFlag];
    assert CosigPart(h) == Take(b1, 1).value.1;
  }

  /** Decoding accepts exactly the wire forms whose flag bytes agree with the record. */
  lemma DecodeAcceptsExactly(b: Bytes, h: RefHead)
    ensures Decode(b) == Ok(h) <==>
            exists ffFlag, cosigFlag :: FlagsMatch(h, ffFlag, cosigFlag) && b == Layout(h, ffFlag, cosigFlag)
  {
    if Decode(b) == Ok(h) {
      var ffFlag, cosigFlag := DecodedLayout(b);
    }
    forall ffFlag, cosigFlag | FlagsMatch(h, ffFlag, cosigFlag) && b == Layout(h, ffFlag, cosigFlag)
      ensures Decode(b) == Ok(h)
    {
      DecodesLayout(h, ffFlag, cosigFlag);
    }
  }

  lemma RoundTrip(h: RefHead)
    ensures Decode(Encode(h)) == Ok(h)
  {
    DecodesLayout(h, Flag(h.nonFf), Flag(h.adminCosig.Some?));
  }

  lemma EncodeInjective(g: RefHead, h: RefHead)
    requires Encode(g) == Encode(h)
    ensures g == h
  {
    RoundTrip(g);
    RoundTrip(h);
  }

  /** Offset of the fast-forward flag byte. */
  function FfFlagAt(h: RefHead): nat {
    32 + 8 + (4 + |h.encRefs|) + 64 + (4 + |h.dekWrap|) + 64 + 8 + (4 + |h.epochTag|)
  }

  /** Offset of the co-signature flag byte. */
  function CosigFlagAt(h: RefHead): nat { FfFlagAt(h) + 1 + (4 + |h.pusherSig|) }

  /** Offset of the predecessor hash. */
  function PrevAt(h: RefHead): nat { 40 + (4 + |h.encRefs|) + 64 + (4 + |h.dekWrap|) }

  lemma DropPart(b: Bytes, at: nat, p: Bytes, rest: Bytes)
    requires at <= |b| && b[at..] == p + rest
    ensures at + |p| <= |b| && b[at..at + |p|] == p && b[at + |p|..] == rest
  {
    assert b[at..][..|p|] == p && b[at..][|p|..] == rest;
  }

  lemma FrontParts(h: RefHead, b: Bytes, rest: Bytes)
    requires b == h.repoId + (BE64(h.seqNo) + (Framed(h.encRefs) + (h.bundleRoot + rest)))
    ensures var n := |h.encRefs|;
            && |b| >= 108 + n && b[..32] == h.repoId && b[32..40] == BE64(h.seqNo) && FramedAt(b, 40, h.encRefs)
            && b[44 + n..108 + n] == h.bundleRoot && b[108 + n..] == rest
  {
    var b4 := h.bundleRoot + rest;
    var b3 := Framed(h.encRefs) + b4;
    assert b[0..] == b;
    DropPart(b, 0, h.repoId, BE64(h.seqNo) + b3);
    DropPart(b, 32, BE64(h.seqNo), b3);
    FramedIn(b, 40, h.encRefs, b4);
    DropPart(b, 40, Framed(h.encRefs), b4);
    DropPart(b, 44 + |h.encRefs|, h.bundleRoot, rest);
  }

  /** The wire form up to the predecessor hash: repository, number, framed encrypted refs, bundle
      root, framed key. Numbers are big-endian. */
  lemma EncodedFront(h: RefHead)
    ensures var b, p, n := Encode(h), PrevAt(h), |h.encRefs|;
            && |b| >= p && b[..32] == h.repoId && b[32..40] == BE64(h.seqNo) && FramedAt(b, 40, h.encRefs)
            && b[44 + n..108 + n] == h.bundleRoot && FramedAt(b, 108 + n, h.dekWrap)
            && b[p..] == h.prev + NestedBack(h, Flag(h.nonFf), Flag(h.adminCosig.Some?))
  {
    LayoutNested(h, Flag(h.nonFf), Flag(h.adminCosig.Some?));
    var b, at := Encode(h), 108 + |h.encRefs|;
    var back := h.prev + NestedBack(h, Flag(h.nonFf), Flag(h.adminCosig.Some?));
    FrontParts(h, b, Framed(h.dekWrap) + back);
    FramedIn(b, at, h.dekWrap, back);
    DropPart(b, at, Framed(h.dekWrap), back);
  }

  /** Then the predecessor hash, the epoch and the framed tag. */
  lemma EncodedBack(h: RefHead)
    ensures var b, p, f := Encode(h), PrevAt(h), FfFlagAt(h);
            && |b| > f && b[p..p + 64] == h.prev && b[p + 64..p + 72] == BE64(h.epoch)
            && FramedAt(b, p + 72, h.epochTag)
            && b[f..] == [Flag(h.nonFf)] + NestedSigs(h, Flag(h.adminCosig.Some?))
  {
    EncodedFront(h);
    BackParts(h, Encode(h), PrevAt(h), NestedSigs(h, Flag(h.adminCosig.Some?)));
  }

  lemma BackParts(h: RefHead, b: Bytes, p: nat, sigs: Bytes)
    requires p <= |b| && b[p..] == h.prev + (BE64(h.epoch) + (Framed(h.epochTag) + ([Flag(h.nonFf)] + sigs)))
    ensures var f := p + 76 + |h.epochTag|;
            && |b| > f && b[p..p + 64] == h.prev && b[p + 64..p + 72] == BE64(h.epoch)
            && FramedAt(b, p + 72, h.epochTag)
            && b[f..] == [Flag(h.nonFf)] + sigs
  {
    var rest := [Flag(h.nonFf)] + sigs;
    DropPart(b, p, h.prev, BE64(h.epoch) + (Framed(h.epochTag) + rest));
    DropPart(b, p + 64, BE64(h.epoch), Framed(h.epochTag) + rest);
    FramedIn(b, p + 72, h.epochTag, rest);
    DropPart(b, p + 72, Framed(h.epochTag), rest);
  }

  lemma SigParts(h: RefHead, b: Bytes, f: nat)
    requires f <= |b| && b[f..] == [Flag(h.nonFf)] + NestedSigs(h, Flag(h.adminCosig.Some?))
    ensures var c := f + 5 + |h.pusherSig|;
            && |b| > c && b[f] == Flag(h.nonFf) && FramedAt(b, f + 1, h.pusherSig)
            && b[c] == Flag(h.adminCosig.Some?) && b[c + 1..] == CosigPart(h)
  {
    var flag := Flag(h.adminCosig.Some?);
    DropPart(b, f, [Flag(h.nonFf)], NestedSigs(h, flag));
    FramedIn(b, f + 1, h.pusherSig, [flag] + CosigPart(h));
    DropPart(b, f + 1, Framed(h.pusherSig), [flag] + CosigPart(h));
    DropPart(b, f + 5 + |h.pusherSig|, [flag], CosigPart(h));
  }

  /** Then the fast-forward flag, the framed signature, and the co-signature flag with the framed
      co-signature if there is one. */
  lemma EncodedSigs(h: RefHead)
    ensures var b, f, c := Encode(h), FfFlagAt(h), CosigFlagAt(h);
            && |b| > c && b[f] == (if h.nonFf then 1 else 0) && FramedAt(b, f + 1, h.pusherSig)
            && b[c] == (if h.adminCosig.Some? then 1 else 0)
            && (h.adminCosig.None? ==> |b| == c + 1)
            && (h.adminCosig.Some? ==> |b| == c + 5 + |h.adminCosig.value| && FramedAt(b, c + 1, h.adminCosig.value))
  {
    var b, c := Encode(h), CosigFlagAt(h);
    EncodedBack(h);
    SigParts(h, b, FfFlagAt(h));
    if h.adminCosig.Some? {
      assert CosigPart(h) == Framed(h.adminCosig.value) + [];
      FramedIn(b, c + 1, h.adminCosig.value, []);
    }
  }

  lemma ReencodingOf(h: RefHead, ffFlag: byte, cosigFlag: byte)
    requires FlagsMatch(h, ffFlag, cosigFlag)
    ensures var b := Layout(h, ffFlag, cosigFlag);
            && |Encode(h)| == |b|
            && CosigFlagAt(h) < |b|
            && (forall i :: 0 <= i < |b| && i != FfFlagAt(h) && i != CosigFlagAt(h) ==> Encode(h)[i] == b[i])
            && (Encode(h) == b <==> b[FfFlagAt(h)] <= 1 && b[CosigFlagAt(h)] <= 1)
  {
    FlagPositions(h, ffFlag, cosigFlag);
    FlagPositions(h, Flag(h.nonFf), Flag(h.adminCosig.Some?));
  }

  /** Re-encoding keeps the length and every byte but the two flags, and is exact
      just when both flags were canonical. */
  lemma Reencoding(b: Bytes, h: RefHead)
    requires Decode(b) == Ok(h)
    ensures |Encode(h)| == |b| && CosigFlagAt(h) < |b|
    ensures forall i :: 0 <= i < |b| && i != FfFlagAt(h) && i != CosigFlagAt(h) ==> Encode(h)[i] == b[i]
    ensures Encode(h) == b <==> b[FfFlagAt(h)] <= 1 && b[CosigFlagAt(h)] <= 1
  {
    DecodeAcceptsExactly(b, h);
    var ffFlag, cosigFlag :| FlagsMatch(h, ffFlag, cosigFlag) && b == Layout(h, ffFlag, cosigFlag);
    ReencodingOf(h, ffFlag, cosigFlag);
  }

  /** A head with empty fields, for examples. */
  function BareHead(seqNo: u64, prev: Digest, nonFf: bool): RefHead {
    RefHead(Zeros(32), seqNo, [], Zeros(64), [], prev, 0, [], nonFf, [], None)
  }

  /** A flag byte of 2 decodes like 1 and re-encodes to other bytes. */
  lemma FlagTwoIsRewritten()
    ensures var h := BareHead(1, ZERO_HASH, true);
            var b := Layout(h, 2, 0);
            Decode(b) == Ok(h) && |Encode(h)| == |b| && Encode(h) != b
  {
    var h := BareHead(1, ZERO_HASH, true);
    DecodesLayout(h, 2, 0);
    Reencoding(Layout(h, 2, 0), h);
    FlagPositions(h, 2, 0);
  }

  lemma FlagPositions(h: RefHead, ffFlag: byte, cosigFlag: byte)
    ensures var b := Layout(h, ffFlag, cosigFlag);
            var c := Layout(h, 0, 0);
            && |b| == |c| && CosigFlagAt(h) < |b|
            && b[FfFlagAt(h)] == ffFlag && b[CosigFlagAt(h)] == cosigFlag
            && (forall i :: 0 <= i < |b| && i != FfFlagAt(h) && i != CosigFlagAt(h) ==> b[i] == c[i])
  {
    var front := h.repoId + BE64(h.seqNo) + Framed(h.encRefs) + h.bundleRoot + Framed(h.dekWrap) + h.prev +
                 BE64(h.epoch) + Framed(h.epochTag);
    assert Layout(h, ffFlag, cosigFlag) == front + [ffFlag] + Framed(h.pusherSig) + [cosigFlag] + CosigPart(h);
    assert Layout(h, 0, 0) == front + [0] + Framed(h.pusherSig) + [0] + CosigPart(h);
  }

  /** The slice-consuming decoder. */
  method DecodeRefHead(bytes: Bytes) returns (r: Result<RefHead, DecodeError>)
    ensures r == Decode(bytes)
  {
    var buf := bytes;
    var t := Take(buf, 32);
    if t.Err? { return Err(t.error); }
    var repo: Bytes32 := t.value.0;
    buf := t.value.1;
    t := Take(buf, 8);
    if t.Err? { return Err(t.error); }
    var seqBytes := t.value.0;
    buf := t.value.1;
    var o := TakeOpaque(buf);
    if o.Err? { return Err(o.error); }
    var encRefs := o.value.0;
    buf := o.value.1;
    t := Take(buf, 64);
    if t.Err? { return Err(t.error); }
    var bundle: Digest := t.value.0;
    buf := t.value.1;
    o := TakeOpaque(buf);
    if o.Err? { return Err(o.error); }
    var dekWrap := o.value.0;
    buf := o.value.1;
    t := Take(buf, 64);
    if t.Err? { return Err(t.error); }
    var prev: Digest := t.value.0;
    buf := t.value.1;
    t := Take(buf, 8);
    if t.Err? { return Err(t.error); }
    var epochBytes := t.value.0;
    buf := t.value.1;
    o := TakeOpaque(buf);
    if o.Err? { return Err(o.error); }
    var epochTag := o.value.0;
    buf := o.value.1;
    t := Take(buf, 1);
    if t.Err? { return Err(t.error); }
    var nonFf := t.value.0[0] != 0;
    buf := t.value.1;
    o := TakeOpaque(buf);
    if o.Err? { return Err(o.error); }
    var pusherSig := o.value.0;
    buf := o.value.1;
    t := Take(buf, 1);
    if t.Err? { return Err(t.error); }
    var hasAdmin := t.value.0[0];
    buf := t.value.1;
    var adminCosig: Option<Opaque> := None;
    if hasAdmin != 0 {
      o := TakeOpaque(buf);
      if o.Err? { return Err(o.error); }
      adminCosig := Some(o.value.0);
      buf := o.value.1;
    }
    if buf != [] { return Err(TrailingBytes); }
    r := Ok(RefHead(repo, ToU64(seqBytes), encRefs, bundle, dekWrap, prev, ToU64(epochBytes), epochTag, nonFf,
                    pusherSig, adminCosig));
  }
}
