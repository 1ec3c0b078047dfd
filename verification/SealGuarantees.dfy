/** What a sealed string is made of, and which inputs its keys and pads depend on. */
module SealGuarantees {
  import opened Bytes
  import opened Primitives
  import opened RefHeads
  import opened Aead
  import opened Chunker
  import opened BlobStore
  import opened Text
  import opened Bundles

  // ---- The pad ---------------------------------------------------------------------------------

  /** The string that is authenticated to get the pad key. */
  function PadInput(nonce: Bytes12, aad: Bytes, len: u64): (b: Bytes)
    ensures |b| == 39 + |aad|
  {
    Ascii("safehub-v1:aead-pad") + (nonce + (aad + BE64(len)))
  }

  /** The first `n` hash blocks under a pad key, each hashed with its own number. */
  function Blocks(s: Suite, padKey: Digest, n: nat): (b: Bytes)
    requires n <= TWO_TO_64
    ensures |b| == 64 * n
  {
    if n == 0 then [] else Blocks(s, padKey, n - 1) + s.sha512(padKey + BE64(n - 1))
  }

  lemma PadKeyIsMac(s: Suite, enc: Bytes32, nonce: Bytes12, aad: Bytes, len: u64)
    ensures PadKey(s, enc, nonce, aad, len) == s.hmac(enc, PadInput(nonce, aad, len))
  {
    var domain := Ascii("safehub-v1:aead-pad");
    assert "safehub-v1:" + "aead-pad" == "safehub-v1:aead-pad";
    assert domain + nonce + aad + BE64(len) == PadInput(nonce, aad, len);
  }

  lemma {:induction false} BlockAt(s: Suite, padKey: Digest, n: nat, i: u64)
    requires i < 64 * n && n <= TWO_TO_64
    ensures Blocks(s, padKey, n)[i] == PadByte(s, padKey, i)
  {
    if i < 64 * (n - 1) {
      BlockAt(s, padKey, n - 1, i);
    } else {
      assert i / 64 == n - 1 && i % 64 == i - 64 * (n - 1);
    }
  }

  /** The pad is the beginning of the hash blocks numbered 0, 1, 2 and so on. */
  lemma PadIsBlocks(s: Suite, enc: Bytes32, nonce: Bytes12, aad: Bytes, len: u64, n: nat)
    requires len <= 64 * n && n <= TWO_TO_64
    ensures Pad(s, enc, nonce, aad, len) == Blocks(s, s.hmac(enc, PadInput(nonce, aad, len)), n)[..len]
  {
    PadKeyIsMac(s, enc, nonce, aad, len);
    var padKey := PadKey(s, enc, nonce, aad, len);
    forall i | 0 <= i < len
      ensures Pad(s, enc, nonce, aad, len)[i] == Blocks(s, padKey, n)[i]
    {
      BlockAt(s, padKey, n, i);
    }
  }

  lemma BE64Injective(m: u64, n: u64)
    requires BE64(m) == BE64(n)
    ensures m == n
  {
    WidthBounds();
    BigEndianDecodes(m, 8);
    BigEndianDecodes(n, 8);
  }

  /** Two equal blocks of one pad exhibit a SHA-512 collision: the strings hashed for blocks of
      different numbers differ. */
  lemma EqualBlocksCollide(s: Suite, enc: Bytes32, nonce: Bytes12, aad: Bytes, len: u64, j: u64, k: u64)
    requires j != k && 64 * (j + 1) <= len && 64 * (k + 1) <= len
    ensures var pad, key := Pad(s, enc, nonce, aad, len), s.hmac(enc, PadInput(nonce, aad, len));
            && key + BE64(j) != key + BE64(k)
            && pad[64 * j..64 * (j + 1)] == s.sha512(key + BE64(j))
            && (pad[64 * j..64 * (j + 1)] == pad[64 * k..64 * (k + 1)] <==>
                s.sha512(key + BE64(j)) == s.sha512(key + BE64(k)))
  {
    PadKeyIsMac(s, enc, nonce, aad, len);
    var key := s.hmac(enc, PadInput(nonce, aad, len));
    PadBlock(s, enc, nonce, aad, len, j);
    PadBlock(s, enc, nonce, aad, len, k);
    if key + BE64(j) == key + BE64(k) {
      SplitEqual(key, BE64(j), key, BE64(k));
      BE64Injective(j, k);
    }
  }

  lemma PadBlock(s: Suite, enc: Bytes32, nonce: Bytes12, aad: Bytes, len: u64, j: u64)
    requires 64 * (j + 1) <= len
    ensures Pad(s, enc, nonce, aad, len)[64 * j..64 * (j + 1)]
         == s.sha512(PadKey(s, enc, nonce, aad, len) + BE64(j))
  {
    var pad, padKey := Pad(s, enc, nonce, aad, len), PadKey(s, enc, nonce, aad, len);
    forall i | 0 <= i < 64
      ensures pad[64 * j + i] == s.sha512(padKey + BE64(j))[i]
    {
      assert (64 * j + i) / 64 == j && (64 * j + i) % 64 == i;
      assert pad[64 * j + i] == PadByte(s, padKey, 64 * j + i);
    }
  }

  /** The string behind a pad key determines nonce, associated data and length. */
  lemma PadInputInjective(m: Bytes12, a: Bytes, k: u64, n: Bytes12, b: Bytes, l: u64)
    requires PadInput(m, a, k) == PadInput(n, b, l)
    ensures m == n && a == b && k == l
  {
    var domain := Ascii("safehub-v1:aead-pad");
    assert |PadInput(m, a, k)| == |PadInput(n, b, l)|;
    SplitEqual(domain, m + (a + BE64(k)), domain, n + (b + BE64(l)));
    SplitEqual(m, a + BE64(k), n, b + BE64(l));
    SplitEqual(a, BE64(k), b, BE64(l));
    BE64Injective(k, l);
  }

  /** One pad key for two sealings that differ in nonce, associated data or length exhibits two
      MAC inputs with one output. */
  lemma OnePadKeyCollides(s: Suite, enc: Bytes32, m: Bytes12, a: Bytes, k: u64, n: Bytes12, b: Bytes, l: u64)
    requires (m, a, k) != (n, b, l) && PadKey(s, enc, m, a, k) == PadKey(s, enc, n, b, l)
    ensures PadInput(m, a, k) != PadInput(n, b, l)
    ensures s.hmac(enc, PadInput(m, a, k)) == s.hmac(enc, PadInput(n, b, l))
  {
    PadKeyIsMac(s, enc, m, a, k);
    PadKeyIsMac(s, enc, n, b, l);
    if PadInput(m, a, k) == PadInput(n, b, l) { PadInputInjective(m, a, k, n, b, l); }
  }

  // ---- The sealed string, byte by byte ------------------------------------------------------------

  /** The pad of a sealing, from the two halves of the expanded key. */
  function PadOf(s: Suite, key: Bytes32, aad: Bytes, nonce: Bytes12, len: u64): (p: Bytes)
    ensures |p| == len
  {
    var enc := s.hkdf64(key, Ascii("safehub-v1:aead-keys"))[..32];
    Blocks(s, s.hmac(enc, PadInput(nonce, aad, len)), (len + 63) / 64)[..len]
  }

  lemma PadOfSeal(s: Suite, key: Bytes32, aad: Bytes, nonce: Bytes12, len: u64)
    ensures PadOf(s, key, aad, nonce, len) == Pad(s, EncKey(s, key), nonce, aad, len)
  {
    assert "safehub-v1:" + "aead-keys" == "safehub-v1:aead-keys";
    PadIsBlocks(s, EncKey(s, key), nonce, aad, len, (len + 63) / 64);
  }

  /** The nonce, the masked part, and the tag of the associated data and the masked part under the
      other half of the expanded key. */
  lemma SealedFrame(s: Suite, key: Bytes32, aad: Bytes, plain: Bytes, nonce: Bytes12)
    requires Fits(plain)
    ensures var sealed, n := Seal(s, key, aad, plain, nonce), |plain|;
            var mac := s.hkdf64(key, Ascii("safehub-v1:aead-keys"))[32..];
            && |sealed| == 12 + 48 + n + 32 && sealed[..12] == nonce
            && sealed[60 + n..] == s.hmac(mac, aad + sealed[12..60 + n])[..32]
  {
    assert "safehub-v1:" + "aead-keys" == "safehub-v1:aead-keys";
    SealParts(s, key, aad, plain, nonce);
  }

  /** The masked part is the commitment block and the plaintext, each byte with its pad byte. */
  lemma SealedBytes(s: Suite, key: Bytes32, aad: Bytes, plain: Bytes, nonce: Bytes12, i: nat)
    requires Fits(plain) && i < 48 + |plain|
    ensures Seal(s, key, aad, plain, nonce)[12 + i]
         == Xor(if i < 48 then COMMIT_BLOCK[i] else plain[i - 48], PadOf(s, key, aad, nonce, 48 + |plain|)[i])
  {
    var text := COMMIT_BLOCK + plain;
    PadOfSeal(s, key, aad, nonce, |text|);
    SealParts(s, key, aad, plain, nonce);
    var sealed := Seal(s, key, aad, plain, nonce);
    assert sealed[12 + i] == sealed[12..|sealed| - 32][i] == Masked(s, key, aad, nonce, text)[i];
  }

  /** The commitment block: a label, then zeros, then the version. */
  lemma CommitBlockText()
    ensures COMMIT_BLOCK[..24] == Ascii("safehub-v1:kcommit-block")
    ensures (forall i :: 24 <= i < 47 ==> COMMIT_BLOCK[i] == 0) && COMMIT_BLOCK[47] == 3
  {
  }

  // ---- The keys and nonces of a head -----------------------------------------------------------------

  /** The string that a head's sealing key is expanded from. */
  function HeadInfo(seqNo: u64): Bytes { Ascii("safehub-v1:head-seal") + BE64(seqNo) }

  /** Heads of different numbers have sealing keys expanded from different strings, so one key
      for both exhibits two strings with one output. */
  lemma HeadKeysAreApart(s: Suite, ke: Bytes32, m: u64, n: u64)
    requires m != n
    ensures HeadInfo(m) != HeadInfo(n)
    ensures HeadSealKey(s, ke, m) == HeadSealKey(s, ke, n) <==>
            s.hkdf32(ke, HeadInfo(m)) == s.hkdf32(ke, HeadInfo(n))
  {
    assert "safehub-v1:" + "head-seal" == "safehub-v1:head-seal";
    if HeadInfo(m) == HeadInfo(n) {
      SplitEqual(Ascii("safehub-v1:head-seal"), BE64(m), Ascii("safehub-v1:head-seal"), BE64(n));
      BE64Injective(m, n);
    }
  }

  /** Digests one after another: digest `i` is bytes `64 i` to `64 i + 63`. */
  ghost predicate IsConcatenation(hashed: Bytes, ids: seq<Digest>) {
    |hashed| == 64 * |ids| && forall i :: 0 <= i < |ids| ==> hashed[64 * i..64 * (i + 1)] == ids[i]
  }

  lemma InFront(a: Bytes, b: Bytes, i: nat, j: nat)
    requires i <= j <= |a| + |b|
    ensures j <= |a| ==> (a + b)[i..j] == a[i..j]
    ensures i == |a| && j == |a| + |b| ==> (a + b)[i..j] == b
  {
  }

  lemma {:induction false} ConcatOfIds(ids: seq<Digest>)
    ensures IsConcatenation(Concat(ids), ids)
  {
    if ids != [] {
      var n := |ids| - 1;
      var front := ids[..n];
      ConcatOfIds(front);
      forall i | 0 <= i < |ids|
        ensures Concat(ids)[64 * i..64 * (i + 1)] == ids[i]
      {
        InFront(Concat(front), ids[n], 64 * i, 64 * (i + 1));
        if i < n { assert Concat(front)[64 * i..64 * (i + 1)] == front[i]; }
      }
    }
  }

  /** The fields of a planned head: the root is the hash of all chunk addresses in order, the tag
      is the cut MAC of epoch, root and number, and the two sealed fields are made under one key
      with the nonces of counters 0 and 1. */
  lemma PlannedFields(s: Suite, json: Json, f: Framing, p: Place, m: RefsMap)
    requires Sealable(json, m)
    ensures var h := PlannedHead(s, json, f, p, m);
            var domain := Ascii("safehub-v1:epoch-tag");
            && h.repoId == f.repo && h.seqNo == p.seqNo && h.prev == p.prev && h.epoch == p.epoch && h.nonFf == p.nonFf
            && (exists hashed :: IsConcatenation(hashed, m.chunkIds) && h.bundleRoot == s.sha512(hashed))
            && h.epochTag == s.hmac(p.mk, domain + (LE64(p.epoch) + (h.bundleRoot + LE64(p.seqNo))))[..32]
            && h.dekWrap[..12] == Zeros(4) + BE64(0) && h.encRefs[..12] == Zeros(4) + BE64(1)
            && h.dekWrap[..12] != h.encRefs[..12]
  {
    ConcatOfIds(m.chunkIds);
    var key := HeadSealKey(s, p.ke, p.seqNo);
    SealParts(s, key, DomainLabel("dek-wrap"), f.dek, DeterministicNonce(0));
    SealParts(s, key, DomainLabel("refs"), json.write(m), DeterministicNonce(1));
    if DeterministicNonce(0) == DeterministicNonce(1) { NoncesDiffer(0, 1); }
    var domain, root := Ascii("safehub-v1:epoch-tag"), s.sha512(Concat(m.chunkIds));
    assert "safehub-v1:" + "epoch-tag" == "safehub-v1:epoch-tag";
    assert domain + LE64(p.epoch) + root + LE64(p.seqNo) == domain + (LE64(p.epoch) + (root + LE64(p.seqNo)));
  }

  /** The two sealed fields open with the key of the head's number, each under its own label: one to
      the data key, the other to the written ref map. */
  lemma PlannedSealsOpen(s: Suite, json: Json, f: Framing, p: Place, m: RefsMap)
    requires Sealable(json, m)
    ensures var h, key := PlannedHead(s, json, f, p, m), s.hkdf32(p.ke, HeadInfo(p.seqNo));
            && Open(s, key, Ascii("safehub-v1:dek-wrap"), h.dekWrap) == Ok(f.dek)
            && Open(s, key, Ascii("safehub-v1:refs"), h.encRefs) == Ok(json.write(m))
  {
    assert "safehub-v1:" + "head-seal" == "safehub-v1:head-seal";
    assert "safehub-v1:" + "dek-wrap" == "safehub-v1:dek-wrap" && "safehub-v1:" + "refs" == "safehub-v1:refs";
    var key := HeadSealKey(s, p.ke, p.seqNo);
    OpenUndoesSeal(s, key, DomainLabel("dek-wrap"), f.dek, DeterministicNonce(0));
    OpenUndoesSeal(s, key, DomainLabel("refs"), json.write(m), DeterministicNonce(1));
  }

  /** Chunk `i` names its place, the count and the push, is addressed by the hash of its
      ciphertext, carries its own nonce, and opens to bytes `i` times 4 MiB and following. */
  lemma ChunkFields(s: Suite, f: Framing, data: Bytes, i: nat)
    requires i < |ChunksOf(s, f, data)|
    ensures var c, n := ChunksOf(s, f, data)[i], |ChunksOf(s, f, data)|;
            var from, to := Min(i * 0x40_0000, |data|), Min((i + 1) * 0x40_0000, |data|);
            && c.index == i && c.count == n && c.pushId == f.pushId && c.id == s.sha512(c.ciphertext)
            && n == (if data == [] then 1 else (|data| + 0x3F_FFFF) / 0x40_0000) % 0x1_0000_0000
            && |c.ciphertext| == to - from + 92 && c.ciphertext[..12] == f.nonces(i)
            && Open(s, f.dek, ChunkAad(f.repo, f.pushId, i, n), c.ciphertext) == Ok(data[from..to])
  {
    var n := ChunkCount(|data|);
    assert ChunksOf(s, f, data)[i] == ChunkOf(s, f, data, i, n);
    OpenUndoesSeal(s, f.dek, ChunkAad(f.repo, f.pushId, i, n), Piece(data, i), f.nonces(i));
    SealParts(s, f.dek, ChunkAad(f.repo, f.pushId, i, n), Piece(data, i), f.nonces(i));
  }

  /** From the caller's refs, symbolic head and bundle to a reader's: what a planned push seals and
      uploads is what a fetch of its head gives back. */
  lemma PublishedIsFetched(s: Suite, json: Json, f: Framing, p: Place, data: Bytes, refs: map<string, string>,
                           symref: Option<string>, before: map<Digest, Bytes>)
    requires Frames(s, json, f, data, PlannedRefs(s, f, data, refs, symref))
    requires Pieces(|data|) < TWO_TO_32 && SmallBlobs(before)
    requires forall c :: c in ChunksOf(s, f, data) ==> Unspoiled(s.sha512, before, c.ciphertext)
    requires InjectiveOn(s.sha512, Ciphertexts(ChunksOf(s, f, data)))
    ensures var head := PlannedHead(s, json, f, p, PlannedRefs(s, f, data, refs, symref));
            var after := PutAll(s.sha512, before, ChunksOf(s, f, data));
            && SmallBlobs(after) && Fetched(s, json, p.ke, after, head).Ok?
            && var got := Fetched(s, json, p.ke, after, head).value;
            got.0.refs == refs && got.0.head == symref && got.0.pushId == f.pushId && got.1 == data
  {
    PushThenFetch(s, json, f, p, data, PlannedRefs(s, f, data, refs, symref), before);
  }

  /** The associated data of a chunk, as text: repository in hexadecimal, push, place and count. */
  lemma ChunkAadText(repo: Bytes32, pushId: string, i: u32, n: u32)
    ensures ChunkAad(repo, pushId, i, n)
         == Ascii("safehub-v1:bundle-chunk|" + Hex(repo) + ":" + pushId + ":" + Decimal(i) + ":" + Decimal(n))
  {
    var place := "|" + Hex(repo) + ":" + pushId + ":" + (Decimal(i) + ":" + Decimal(n));
    AsciiOfSum("safehub-v1:" + "bundle-chunk", place);
    assert ("safehub-v1:" + "bundle-chunk") + place
        == "safehub-v1:bundle-chunk|" + Hex(repo) + ":" + pushId + ":" + Decimal(i) + ":" + Decimal(n);
  }
}
