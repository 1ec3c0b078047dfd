/** The committing AEAD: a hash-counter pad over a commitment block and the plaintext,
    then an outer MAC. The hash functions are arbitrary. */
module Aead {
  import opened Bytes
  import opened Primitives

  const COMMIT_BLOCK: Bytes48 :=
    [0x73, 0x61, 0x66, 0x65, 0x68, 0x75, 0x62, 0x2d] +
    [0x76, 0x31, 0x3a, 0x6b, 0x63, 0x6f, 0x6d, 0x6d] +
    [0x69, 0x74, 0x2d, 0x62, 0x6c, 0x6f, 0x63, 0x6b] +
    [0x00, 0x00, 0x00, 0x00, 0x00, 0x00, 0x00, 0x00] +
    [0x00, 0x00, 0x00, 0x00, 0x00, 0x00, 0x00, 0x00] +
    [0x00, 0x00, 0x00, 0x00, 0x00, 0x00, 0x00, 0x03]

  const NONCE_LEN: nat := 12
  const COMMIT_LEN: nat := 48
  const TAG_LEN: nat := 32
  const OVERHEAD: nat := NONCE_LEN + COMMIT_LEN + TAG_LEN
  const MAX_SEALS_PER_KEY: u64 := TWO_TO_32

  datatype AeadError = DecryptFailed | CounterExhausted

  /** Byte strings whose length a 64-bit machine can hold, commitment block included. */
  predicate Fits(b: Bytes) { |b| + OVERHEAD < TWO_TO_64 }

  // ---- Keys, pad and tag -----------------------------------------------------------------------

  function EncKey(s: Suite, key: Bytes32): Bytes32 { s.hkdf64(key, DomainLabel("aead-keys"))[..32] }

  function MacKey(s: Suite, key: Bytes32): Bytes32 { s.hkdf64(key, DomainLabel("aead-keys"))[32..] }

  function PadKey(s: Suite, enc: Bytes32, nonce: Bytes12, aad: Bytes, len: u64): Digest {
    s.hmac(enc, DomainLabel("aead-pad") + nonce + aad + BE64(len))
  }

  /** Byte `i` of the pad is byte `i` mod 64 of hash block `i` div 64. */
  function PadByte(s: Suite, padKey: Digest, i: u64): byte {
    s.sha512(padKey + BE64(i / 64))[i % 64]
  }

  function Pad(s: Suite, enc: Bytes32, nonce: Bytes12, aad: Bytes, len: u64): (p: Bytes)
    ensures |p| == len
  {
    var padKey := PadKey(s, enc, nonce, aad, len);
    seq(len, i requires 0 <= i < len => PadByte(s, padKey, i))
  }

  function Tag(s: Suite, mac: Bytes32, aad: Bytes, body: Bytes): Bytes32 {
    s.hmac(mac, aad + body)[..32]
  }

  method ExpandPad(s: Suite, enc: Bytes32, nonce: Bytes12, aad: Bytes, len: u64) returns (pad: array<byte>)
    ensures fresh(pad) && pad[..] == Pad(s, enc, nonce, aad, len)
  {
    var padKey := PadKey(s, enc, nonce, aad, len);
    pad := new byte[len](_ => 0);
    var ctr, off := 0, 0;
    while off < len
      invariant 0 <= ctr && 0 <= off == Min(64 * ctr, len)
      invariant forall i :: 0 <= i < off ==> pad[i] == PadByte(s, padKey, i)
    {
      var block := s.sha512(padKey + BE64(ctr));
      var take := Min(|block|, len - off);
      forall j | 0 <= j < take {
        pad[off + j] := block[j];
      }
      assert forall i :: off <= i < off + take ==> i / 64 == ctr && i % 64 == i - off;
      off := off + take;
      ctr := ctr + 1;
    }
  }

  method XorInto(buf: array<byte>, pad: array<byte>)
    requires buf.Length == pad.Length && buf != pad
    modifies buf
    ensures buf[..] == XorAll(old(buf[..]), pad[..])
  {
    for i := 0 to buf.Length
      invariant forall j :: 0 <= j < i ==> buf[j] == Xor(old(buf[j]), pad[j])
      invariant forall j :: i <= j < buf.Length ==> buf[j] == old(buf[j])
    {
      buf[i] := Xor(buf[i], pad[i]);
    }
  }

  /** Accumulate the differences of all bytes, then look once. */
  method CtEq(a: Bytes, b: Bytes) returns (same: bool)
    ensures same <==> a == b
  {
    if |a| != |b| { return false; }
    var diff: byte := 0;
    for i := 0 to |a|
      invariant diff == 0 <==> a[..i] == b[..i]
    {
      DiffStep(diff, a[i], b[i]);
      assert a[..i + 1] == a[..i] + [a[i]] && b[..i + 1] == b[..i] + [b[i]];
      diff := Or(diff, Xor(a[i], b[i]));
    }
    assert a[..|a|] == a && b[..|b|] == b;
    same := diff == 0;
  }

  // ---- Sealing and opening ----------------------------------------------------------------------

  function Masked(s: Suite, key: Bytes32, aad: Bytes, nonce: Bytes12, text: Bytes): (b: Bytes)
    requires |text| < TWO_TO_64
    ensures |b| == |text|
  {
    XorAll(text, Pad(s, EncKey(s, key), nonce, aad, |text|))
  }

  function Seal(s: Suite, key: Bytes32, aad: Bytes, plain: Bytes, nonce: Bytes12): (sealed: Bytes)
    requires Fits(plain)
    ensures |sealed| == |plain| + OVERHEAD
  {
    var body := Masked(s, key, aad, nonce, COMMIT_BLOCK + plain);
    nonce + (body + Tag(s, MacKey(s, key), aad, body))
  }

  function Open(s: Suite, key: Bytes32, aad: Bytes, sealed: Bytes): Result<Bytes, AeadError>
    requires |sealed| < TWO_TO_64
  {
    if |sealed| < OVERHEAD then Err(DecryptFailed) else
      var nonce, body, tag := sealed[..12], sealed[12..|sealed| - 32], sealed[|sealed| - 32..];
      if tag != Tag(s, MacKey(s, key), aad, body) then Err(DecryptFailed) else
        var buf := Masked(s, key, aad, nonce, body);
        if buf[..48] != COMMIT_BLOCK then Err(DecryptFailed) else Ok(buf[48..])
  }

  method SealWithNonce(s: Suite, key: Bytes32, aad: Bytes, plain: Bytes, nonce: Bytes12) returns (out: Bytes)
    requires Fits(plain)
    ensures out == Seal(s, key, aad, plain, nonce)
  {
    var text := COMMIT_BLOCK + plain;
    var pad := ExpandPad(s, EncKey(s, key), nonce, aad, |text|);
    var padded := new byte[|text|](i requires 0 <= i < |text| => text[i]);
    assert padded[..] == text;
    XorInto(padded, pad);
    var body := padded[..];
    out := nonce;
    out := out + body;
    out := out + Tag(s, MacKey(s, key), aad, body);
  }

  method OpenSealed(s: Suite, key: Bytes32, aad: Bytes, sealed: Bytes) returns (r: Result<Bytes, AeadError>)
    requires |sealed| < TWO_TO_64
    ensures r == Open(s, key, aad, sealed)
  {
    if |sealed| < OVERHEAD { return Err(DecryptFailed); }
    var front, tag := sealed[..|sealed| - 32], sealed[|sealed| - 32..];
    var nonce, body := front[..12], front[12..];
    assert nonce == sealed[..12] && body == sealed[12..|sealed| - 32];
    var same := CtEq(tag, Tag(s, MacKey(s, key), aad, body));
    if !same { return Err(DecryptFailed); }
    var pad := ExpandPad(s, EncKey(s, key), nonce, aad, |body|);
    var buf := new byte[|body|](i requires 0 <= i < |body| => body[i]);
    assert buf[..] == body;
    XorInto(buf, pad);
    var text := buf[..];
    if text[..48] != COMMIT_BLOCK { return Err(DecryptFailed); }
    r := Ok(text[48..]);
  }

  // ---- Deterministic nonces ---------------------------------------------------------------------

  function DeterministicNonce(counter: u64): Bytes12 { Zeros(4) + BE64(counter) }

  method SealDeterministic(s: Suite, key: Bytes32, aad: Bytes, plain: Bytes, counter: u64)
    returns (r: Result<Bytes, AeadError>)
    requires Fits(plain)
    ensures r == if counter < MAX_SEALS_PER_KEY then Ok(Seal(s, key, aad, plain, DeterministicNonce(counter)))
                 else Err(CounterExhausted)
  {
    if counter >= MAX_SEALS_PER_KEY { return Err(CounterExhausted); }
    var out := SealWithNonce(s, key, aad, plain, DeterministicNonce(counter));
    r := Ok(out);
  }

  lemma NoncesDiffer(m: u64, n: u64)
    requires DeterministicNonce(m) == DeterministicNonce(n)
    ensures m == n
  {
    SplitEqual(Zeros(4), BE64(m), Zeros(4), BE64(n));
    WidthBounds();
    BigEndianDecodes(m, 8);
    BigEndianDecodes(n, 8);
  }

  // ---- The exact inverse --------------------------------------------------------------------------

  lemma MaskTwice(s: Suite, key: Bytes32, aad: Bytes, nonce: Bytes12, text: Bytes)
    requires |text| < TWO_TO_64
    ensures Masked(s, key, aad, nonce, Masked(s, key, aad, nonce, text)) == text
  {
    XorAllCancels(text, Pad(s, EncKey(s, key), nonce, aad, |text|));
  }

  lemma SealParts(s: Suite, key: Bytes32, aad: Bytes, plain: Bytes, nonce: Bytes12)
    requires Fits(plain)
    ensures var sealed := Seal(s, key, aad, plain, nonce);
            var body := Masked(s, key, aad, nonce, COMMIT_BLOCK + plain);
            && sealed[..12] == nonce && sealed[12..|sealed| - 32] == body
            && sealed[|sealed| - 32..] == Tag(s, MacKey(s, key), aad, body)
  {
  }

  lemma OpenUndoesSeal(s: Suite, key: Bytes32, aad: Bytes, plain: Bytes, nonce: Bytes12)
    requires Fits(plain)
    ensures Open(s, key, aad, Seal(s, key, aad, plain, nonce)) == Ok(plain)
  {
    SealParts(s, key, aad, plain, nonce);
    MaskTwice(s, key, aad, nonce, COMMIT_BLOCK + plain);
    assert (COMMIT_BLOCK + plain)[..48] == COMMIT_BLOCK && (COMMIT_BLOCK + plain)[48..] == plain;
  }

  lemma SealUndoesOpen(s: Suite, key: Bytes32, aad: Bytes, sealed: Bytes)
    requires |sealed| < TWO_TO_64 && Open(s, key, aad, sealed).Ok?
    ensures Fits(Open(s, key, aad, sealed).value)
    ensures Seal(s, key, aad, Open(s, key, aad, sealed).value, sealed[..12]) == sealed
  {
    var nonce, body, tag := sealed[..12], sealed[12..|sealed| - 32], sealed[|sealed| - 32..];
    var buf := Masked(s, key, aad, nonce, body);
    assert COMMIT_BLOCK + buf[48..] == buf;
    MaskTwice(s, key, aad, nonce, body);
    assert sealed == nonce + (body + tag);
  }

  /** A string opens to `plain` exactly when it is the sealing of `plain` under its own
      first twelve bytes: one ciphertext per nonce, and nothing else opens. */
  lemma OpenIffSealed(s: Suite, key: Bytes32, aad: Bytes, sealed: Bytes, plain: Bytes)
    requires |sealed| < TWO_TO_64
    ensures Open(s, key, aad, sealed) == Ok(plain) <==>
              |sealed| == |plain| + OVERHEAD && sealed == Seal(s, key, aad, plain, sealed[..12])
  {
    if Open(s, key, aad, sealed) == Ok(plain) {
      SealUndoesOpen(s, key, aad, sealed);
    } else if |sealed| == |plain| + OVERHEAD && sealed == Seal(s, key, aad, plain, sealed[..12]) {
      OpenUndoesSeal(s, key, aad, plain, sealed[..12]);
      assert false;
    }
  }

  /** Opening under other associated data yields two different MAC inputs with one tag. */
  lemma OtherAadIsTagCollision(s: Suite, key: Bytes32, aad: Bytes, other: Bytes, plain: Bytes, nonce: Bytes12)
    requires Fits(plain) && aad != other
    requires Open(s, key, other, Seal(s, key, aad, plain, nonce)).Ok?
    ensures var body := Masked(s, key, aad, nonce, COMMIT_BLOCK + plain);
            && aad + body != other + body
            && Tag(s, MacKey(s, key), aad, body) == Tag(s, MacKey(s, key), other, body)
  {
    SealParts(s, key, aad, plain, nonce);
    var body := Masked(s, key, aad, nonce, COMMIT_BLOCK + plain);
    if aad + body == other + body {
      assert |aad + body| == |other + body|;
      SplitEqual(aad, body, other, body);
    }
  }
}
