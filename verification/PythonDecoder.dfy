/** The second, offset-based decoder of ref-head bytes. Python slices clamp at the
    end of the buffer instead of failing, so a short field is only noticed later. */
module PythonDecoder {
  import opened Bytes
  import opened Primitives
  import opened RefHeads

  /** The exception a rejected input raises. Only `ValueError` is caught by the tool. */
  datatype Exception = ValueError | StructError | IndexError

  datatype Summary = Summary(
    repoId: Bytes,
    seqNo: u64,
    encRefsLen: nat,
    bundleRoot: Bytes,
    dekWrapLen: nat,
    prev: Bytes,
    epoch: u64,
    epochTagLen: nat,
    nonFf: bool,
    pusherSigLen: nat,
    adminCosigLen: Option<nat>,
    headHash: Digest)

  function SummaryOf(h: RefHead, digest: Digest): Summary {
    Summary(h.repoId, h.seqNo, |h.encRefs|, h.bundleRoot, |h.dekWrap|, h.prev, h.epoch, |h.epochTag|, h.nonFf,
            |h.pusherSig|, if h.adminCosig.Some? then Some(|h.adminCosig.value|) else None, digest)
  }

  function Slice(buf: Bytes, from: nat, to: nat): (s: Bytes)
    requires from <= to
    ensures to <= |buf| ==> s == buf[from..to]
  {
    buf[Min(from, |buf|)..Min(to, |buf|)]
  }

  method GetOpaque(buf: Bytes, offset: nat) returns (r: Result<(Opaque, nat), Exception>)
    ensures offset > |buf| ==> r.Err?
    ensures offset <= |buf| ==> (r.Ok? <==> TakeOpaque(buf[offset..]).Ok?)
    ensures r.Ok? ==> offset <= r.value.1 <= |buf|
                      && TakeOpaque(buf[offset..]) == Ok((r.value.0, buf[r.value.1..]))
  {
    var off := offset;
    if off + 4 > |buf| { return Err(ValueError); }
    var n := FromBigEndian(buf[off..off + 4]);
    WidthBounds();
    assert buf[offset..][..4] == buf[off..off + 4] && buf[offset..][4..] == buf[off + 4..];
    off := off + 4;
    if off + n > |buf| { return Err(ValueError); }
    assert buf[off..][..n] == buf[off..off + n] && buf[off..][n..] == buf[off + n..];
    r := Ok((Slice(buf, off, off + n), off + n));
  }

  lemma TakeAt(buf: Bytes, off: nat, n: nat)
    requires off + n <= |buf|
    ensures Take(buf[off..], n) == Ok((buf[off..off + n], buf[off + n..]))
  {
    assert buf[off..][..n] == buf[off..off + n] && buf[off..][n..] == buf[off + n..];
  }

  function U64At(buf: Bytes, off: nat): (n: u64)
    requires off + 8 <= |buf|
    ensures Take(buf[off..], 8) == Ok((BE64(n), buf[off + 8..])) && n == ToU64(BE64(n))
  {
    TakeAt(buf, off, 8);
    ToU64(buf[off..off + 8])
  }

  method UnpackU64(buf: Bytes, off: nat) returns (r: Result<u64, Exception>)
    ensures r.Ok? <==> off + 8 <= |buf|
    ensures r.Ok? ==> r.value == U64At(buf, off)
  {
    if off + 8 > |buf| { return Err(StructError); }
    r := Ok(U64At(buf, off));
  }

  method ByteAt(buf: Bytes, off: nat) returns (r: Result<byte, Exception>)
    ensures r.Ok? <==> off < |buf|
    ensures r.Ok? ==> Take(buf[off..], 1) == Ok(([r.value], buf[off + 1..]))
  {
    if off >= |buf| { return Err(IndexError); }
    TakeAt(buf, off, 1);
    assert buf[off..off + 1] == [buf[off]];
    r := Ok(buf[off]);
  }

  method DecodeCosigAt(buf: Bytes, offset: nat) returns (r: Result<Option<Opaque>, Exception>)
    ensures r.Ok? <==> offset <= |buf| && DecodeCosig(buf[offset..]).Ok?
    ensures r.Ok? ==> DecodeCosig(buf[offset..]) == Ok(r.value)
  {
    var off := offset;
    var hasAdmin :- ByteAt(buf, off);
    off := off + 1;
    var cosig: Option<Opaque> := None;
    if hasAdmin != 0 {
      var admin :- GetOpaque(buf, off);
      cosig, off := Some(admin.0), admin.1;
    }
    if off != |buf| { return Err(ValueError); }
    r := Ok(cosig);
  }

  method DecodeStampAt(buf: Bytes, offset: nat) returns (r: Result<(Stamp, nat), Exception>)
    ensures r.Ok? <==> offset <= |buf| && DecodeStamp(buf[offset..]).Ok?
    ensures r.Ok? ==> r.value.1 <= |buf| && DecodeStamp(buf[offset..]) == Ok((r.value.0, buf[r.value.1..]))
  {
    var off := offset;
    var epoch :- UnpackU64(buf, off);
    off := off + 8;
    var tag :- GetOpaque(buf, off);
    off := tag.1;
    var ff :- ByteAt(buf, off);
    off := off + 1;
    r := Ok((Stamp(epoch, tag.0, ff != 0), off));
  }

  method DecodeFrontAt(buf: Bytes) returns (r: Result<(Front, nat), Exception>)
    ensures r.Ok? <==> DecodeFront(buf).Ok?
    ensures r.Ok? ==> r.value.1 <= |buf| && DecodeFront(buf) == Ok((r.value.0, buf[r.value.1..]))
  {
    var off := 0;
    if |buf| < 32 + 8 { return Err(ValueError); }
    var repo := Slice(buf, off, off + 32);
    TakeAt(buf, 0, 32);
    assert buf[0..] == buf;
    off := off + 32;
    var seqNo := U64At(buf, off);
    off := off + 8;
    var refs :- GetOpaque(buf, off);
    r := Ok((Front(repo, seqNo, refs.0), refs.1));
  }

  /** The two digests are read by clamped slices: a short one shows up as an offset
      beyond the end of the buffer. */
  method DecodeMiddleAt(buf: Bytes, offset: nat) returns (r: Result<((Bytes, Opaque, Bytes), nat), Exception>)
    requires offset <= |buf|
    ensures r.Ok? && r.value.1 <= |buf| <==> DecodeMiddle(buf[offset..]).Ok?
    ensures r.Ok? && r.value.1 <= |buf| ==>
              var m := DecodeMiddle(buf[offset..]).value;
              r.value.0 == (m.0.bundleRoot, m.0.dekWrap, m.0.prev) && m.1 == buf[r.value.1..]
  {
    var off := offset;
    var root := Slice(buf, off, off + 64);
    if off + 64 <= |buf| { TakeAt(buf, off, 64); }
    off := off + 64;
    var wrap :- GetOpaque(buf, off);
    off := wrap.1;
    var prev := Slice(buf, off, off + 64);
    if off + 64 <= |buf| { TakeAt(buf, off, 64); }
    off := off + 64;
    r := Ok(((root, wrap.0, prev), off));
  }

  /** Accepts exactly the strings the Rust decoder accepts, with the same fields. */
  method DecodeRefHead(sha: Bytes -> Digest, data: Bytes) returns (r: Result<Summary, Exception>)
    ensures r.Ok? <==> Decode(data).Ok?
    ensures r.Ok? ==> r.value == SummaryOf(Decode(data).value, sha(data))
  {
    var front :- DecodeFrontAt(data);
    var f, off := front.0, front.1;
    var middle :- DecodeMiddleAt(data, off);
    var (root, wrap, prev) := middle.0;
    off := middle.1;
    var stamp :- DecodeStampAt(data, off);
    var t := stamp.0;
    off := stamp.1;
    var sig :- GetOpaque(data, off);
    off := sig.1;
    var cosig :- DecodeCosigAt(data, off);
    r := Ok(Summary(f.repoId, f.seqNo, |f.encRefs|, root, |wrap|, prev, t.epoch, |t.epochTag|, t.nonFf, |sig.0|,
                    if cosig.Some? then Some(|cosig.value|) else None, sha(data)));
  }
}
