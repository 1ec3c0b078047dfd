/** The content-addressed blob store and the upload of a push's chunks. Blobs are written
    in place, so a write that is cut short leaves a torn file behind. */
module BlobStore {
  import opened Bytes
  import opened Primitives
  import opened Chunker

  type Sha = Bytes -> Digest

  datatype BlobMeta = BlobMeta(id: Digest, size: nat, chunkIndex: u32, chunkCount: u32, pushId: string)

  /** How one put can be cut short: before the file exists, while it is written, or between
      the blob and its metadata. */
  datatype WriteFault = Intact | NotCreated | Torn(kept: nat) | NoMeta

  datatype BlobError = WriteFailed

  function NoFaults(i: nat): WriteFault { Intact }

  ghost predicate ContentAddressed(sha: Sha, blobs: map<Digest, Bytes>) {
    forall id :: id in blobs ==> sha(blobs[id]) == id
  }

  /** A blob that is already there is not written again, whatever it holds. */
  function Put(sha: Sha, blobs: map<Digest, Bytes>, ciphertext: Bytes, fault: WriteFault): map<Digest, Bytes> {
    var id := sha(ciphertext);
    if id in blobs || fault == NotCreated then blobs
    else blobs[id := if fault.Torn? then ciphertext[..Min(fault.kept, |ciphertext|)] else ciphertext]
  }

  predicate PutFails(present: bool, fault: WriteFault) {
    fault == NoMeta || (!present && fault != Intact)
  }

  /** The files after putting the first `n` chunks, the `i`-th cut short by `faults(i)`. */
  function PutFirst(sha: Sha, blobs: map<Digest, Bytes>, chunks: seq<Chunk>, n: nat, faults: nat -> WriteFault)
    : map<Digest, Bytes>
    requires n <= |chunks|
  {
    if n == 0 then blobs
    else Put(sha, PutFirst(sha, blobs, chunks, n - 1, faults), chunks[n - 1].ciphertext, faults(n - 1))
  }

  function PutAll(sha: Sha, blobs: map<Digest, Bytes>, chunks: seq<Chunk>): map<Digest, Bytes> {
    PutFirst(sha, blobs, chunks, |chunks|, NoFaults)
  }

  /** A put that does not fail describes the blob, under the address and size it found itself. */
  function PutMeta(sha: Sha, blobs: map<Digest, Bytes>, metas: map<Digest, BlobMeta>, meta: BlobMeta, ciphertext: Bytes,
                   fault: WriteFault): map<Digest, BlobMeta>
  {
    var id := sha(ciphertext);
    if PutFails(id in blobs, fault) then metas else metas[id := meta.(id := id, size := |ciphertext|)]
  }

  function ClaimedMeta(c: Chunk): BlobMeta { BlobMeta(c.id, |c.ciphertext|, c.index, c.count, c.pushId) }

  function MetasAfter(sha: Sha, blobs: map<Digest, Bytes>, metas: map<Digest, BlobMeta>, chunks: seq<Chunk>, n: nat,
                      faults: nat -> WriteFault): map<Digest, BlobMeta>
    requires n <= |chunks|
  {
    if n == 0 then metas
    else PutMeta(sha, PutFirst(sha, blobs, chunks, n - 1, faults), MetasAfter(sha, blobs, metas, chunks, n - 1, faults),
                 ClaimedMeta(chunks[n - 1]), chunks[n - 1].ciphertext, faults(n - 1))
  }

  class Blobs {
    const sha: Sha
    var files: map<Digest, Bytes>
    var metas: map<Digest, BlobMeta>

    constructor (sha: Sha)
      ensures this.sha == sha && files == map[] && metas == map[]
    {
      this.sha, files, metas := sha, map[], map[];
    }

    /** The identifier and size that the caller supplies are overwritten. */
    method PutBlob(meta: BlobMeta, ciphertext: Bytes, fault: WriteFault) returns (r: Result<Digest, BlobError>)
      modifies this
      ensures files == Put(sha, old(files), ciphertext, fault)
      ensures r == if PutFails(sha(ciphertext) in old(files), fault) then Err(WriteFailed) else Ok(sha(ciphertext))
      ensures metas == PutMeta(sha, old(files), old(metas), meta, ciphertext, fault)
    {
      var id := sha(ciphertext);
      var stored := meta.(id := id);
      stored := stored.(size := |ciphertext|);
      if id !in files {
        match fault {
          case NotCreated => return Err(WriteFailed);
          case Torn(kept) =>
            files := files[id := ciphertext[..Min(kept, |ciphertext|)]];
            return Err(WriteFailed);
          case _ => files := files[id := ciphertext];
        }
      }
      if fault == NoMeta { return Err(WriteFailed); }
      metas := metas[id := stored];
      r := Ok(id);
    }

    method Get(id: Digest) returns (r: Option<Bytes>)
      ensures r == if id in files then Some(files[id]) else None
    {
      if id !in files { return None; }
      r := Some(files[id]);
    }

    method SendOne(chunks: seq<Chunk>, i: nat, faults: nat -> WriteFault, ghost start: map<Digest, Bytes>,
                   ghost first: map<Digest, BlobMeta>)
      returns (ok: bool)
      requires i < |chunks| && files == PutFirst(sha, start, chunks, i, faults)
      requires metas == MetasAfter(sha, start, first, chunks, i, faults)
      modifies this
      ensures files == PutFirst(sha, start, chunks, i + 1, faults)
      ensures metas == MetasAfter(sha, start, first, chunks, i + 1, faults)
      ensures ok <==> NothingLost(sha, start, chunks, i, faults)
    {
      var c := chunks[i];
      var put := PutBlob(ClaimedMeta(c), c.ciphertext, faults(i));
      ok := put.Ok?;
    }

    /** One wave: every put is attempted. */
    method SendWave(chunks: seq<Chunk>, from: nat, to: nat, faults: nat -> WriteFault, ghost start: map<Digest, Bytes>,
                    ghost first: map<Digest, BlobMeta>)
      returns (ok: bool)
      requires from <= to <= |chunks| && files == PutFirst(sha, start, chunks, from, faults)
      requires metas == MetasAfter(sha, start, first, chunks, from, faults)
      modifies this
      ensures files == PutFirst(sha, start, chunks, to, faults)
      ensures metas == MetasAfter(sha, start, first, chunks, to, faults)
      ensures ok <==> AllSent(sha, start, chunks, from, to, faults)
    {
      ok := true;
      for i := from to to
        invariant files == PutFirst(sha, start, chunks, i, faults)
        invariant metas == MetasAfter(sha, start, first, chunks, i, faults)
        invariant ok <==> AllSent(sha, start, chunks, from, i, faults)
      {
        var sent := SendOne(chunks, i, faults, start, first);
        ok := ok && sent;
      }
    }

    /** Upload in waves of `window` chunks, stopping after the first wave in which a put failed. */
    method Upload(chunks: seq<Chunk>, window: nat, faults: nat -> WriteFault) returns (ok: bool, ghost sent: nat)
      modifies this
      ensures sent <= |chunks| && files == PutFirst(sha, old(files), chunks, sent, faults)
      ensures metas == MetasAfter(sha, old(files), old(metas), chunks, sent, faults)
      ensures ok ==> sent == |chunks| && files == PutAll(sha, old(files), chunks)
      ensures ok ==> forall i :: 0 <= i < |chunks| ==> NothingLost(sha, old(files), chunks, i, faults)
      ensures (forall i :: 0 <= i < |chunks| ==> faults(i) == Intact) ==> ok
    {
      var wave := Max(window, 1);
      ghost var start, first := files, metas;
      var at := 0;
      while at < |chunks|
        invariant at <= |chunks| && files == PutFirst(sha, start, chunks, at, faults)
        invariant metas == MetasAfter(sha, start, first, chunks, at, faults)
        invariant forall i :: 0 <= i < at ==> NothingLost(sha, start, chunks, i, faults)
      {
        var end := Min(at + wave, |chunks|);
        var sentAll := SendWave(chunks, at, end, faults, start, first);
        AllSentMeans(sha, start, chunks, at, end, faults);
        at := end;
        if !sentAll { return false, at; }
      }
      FaultsDidNotMatter(sha, start, chunks, faults, |chunks|);
      ok, sent := true, |chunks|;
    }
  }

  /** The `i`-th put of an upload did not fail. */
  ghost predicate NothingLost(sha: Sha, blobs: map<Digest, Bytes>, chunks: seq<Chunk>, i: nat,
                              faults: nat -> WriteFault)
    requires i < |chunks|
  {
    !PutFails(sha(chunks[i].ciphertext) in PutFirst(sha, blobs, chunks, i, faults), faults(i))
  }

  ghost predicate AllSent(sha: Sha, blobs: map<Digest, Bytes>, chunks: seq<Chunk>, from: nat, to: nat,
                          faults: nat -> WriteFault)
    requires from <= to <= |chunks|
  {
    from == to || (AllSent(sha, blobs, chunks, from, to - 1, faults) && NothingLost(sha, blobs, chunks, to - 1, faults))
  }

  lemma {:induction false} AllSentMeans(sha: Sha, blobs: map<Digest, Bytes>, chunks: seq<Chunk>, from: nat, to: nat,
                                        faults: nat -> WriteFault)
    requires from <= to <= |chunks|
    ensures AllSent(sha, blobs, chunks, from, to, faults) <==>
            forall i :: from <= i < to ==> NothingLost(sha, blobs, chunks, i, faults)
  {
    if from < to { AllSentMeans(sha, blobs, chunks, from, to - 1, faults); }
  }

  lemma {:induction false} FaultsDidNotMatter(sha: Sha, blobs: map<Digest, Bytes>, chunks: seq<Chunk>,
                                              faults: nat -> WriteFault, n: nat)
    requires n <= |chunks| && forall i :: 0 <= i < n ==> NothingLost(sha, blobs, chunks, i, faults)
    ensures PutFirst(sha, blobs, chunks, n, faults) == PutFirst(sha, blobs, chunks, n, NoFaults)
  {
    if n > 0 {
      FaultsDidNotMatter(sha, blobs, chunks, faults, n - 1);
      assert NothingLost(sha, blobs, chunks, n - 1, faults);
    }
  }

  /** After the first `n` puts, a chunk whose own put did not fail, and whose address no later one
      of them shares, is described by its address and size and by its index, count and push. */
  lemma {:induction false} MetaOfChunk(sha: Sha, blobs: map<Digest, Bytes>, metas: map<Digest, BlobMeta>,
                                       chunks: seq<Chunk>, n: nat, faults: nat -> WriteFault, i: nat)
    requires i < n <= |chunks| && NothingLost(sha, blobs, chunks, i, faults)
    requires forall j :: i < j < n ==> sha(chunks[j].ciphertext) != sha(chunks[i].ciphertext)
    ensures var after, c := MetasAfter(sha, blobs, metas, chunks, n, faults), chunks[i];
            var id := sha(c.ciphertext);
            && id in after && after[id].id == id && after[id].size == |c.ciphertext|
            && after[id].chunkIndex == c.index && after[id].chunkCount == c.count && after[id].pushId == c.pushId
    decreases n
  {
    if i < n - 1 { MetaOfChunk(sha, blobs, metas, chunks, n - 1, faults, i); }
  }

  /** Blobs that were not put keep their description. */
  lemma {:induction false} OtherMetasStay(sha: Sha, blobs: map<Digest, Bytes>, metas: map<Digest, BlobMeta>,
                                          chunks: seq<Chunk>, n: nat, faults: nat -> WriteFault, id: Digest)
    requires n <= |chunks| && forall i :: 0 <= i < n ==> sha(chunks[i].ciphertext) != id
    ensures var after := MetasAfter(sha, blobs, metas, chunks, n, faults);
            (id in after <==> id in metas) && (id in metas ==> after[id] == metas[id])
  {
    if n > 0 { OtherMetasStay(sha, blobs, metas, chunks, n - 1, faults, id); }
  }

  // ---- What an upload leaves behind -----------------------------------------------------------------

  ghost predicate Holds(sha: Sha, blobs: map<Digest, Bytes>, ciphertext: Bytes) {
    sha(ciphertext) in blobs && blobs[sha(ciphertext)] == ciphertext
  }

  /** No file stands in the way: what is stored under the ciphertext's address is it. */
  ghost predicate Unspoiled(sha: Sha, blobs: map<Digest, Bytes>, ciphertext: Bytes) {
    sha(ciphertext) in blobs ==> blobs[sha(ciphertext)] == ciphertext
  }

  function Ciphertexts(chunks: seq<Chunk>): set<Bytes> {
    set c | c in chunks :: c.ciphertext
  }

  lemma PutAddsOne(sha: Sha, blobs: map<Digest, Bytes>, ciphertext: Bytes, values: set<Bytes>)
    requires blobs.Values <= values && ciphertext in values
    ensures Put(sha, blobs, ciphertext, Intact).Values <= values
  {
    var after := Put(sha, blobs, ciphertext, Intact);
    forall v | v in after.Values
      ensures v in values
    {
      var id :| id in after && after[id] == v;
      if id in blobs && blobs[id] == v { assert v in blobs.Values; }
    }
  }

  /** An upload keeps the files that were there and adds only its chunks. */
  lemma {:induction false} UploadKeeps(sha: Sha, blobs: map<Digest, Bytes>, chunks: seq<Chunk>, n: nat)
    requires n <= |chunks|
    ensures var after := PutFirst(sha, blobs, chunks, n, NoFaults);
            && (forall id :: id in blobs ==> id in after && after[id] == blobs[id])
            && after.Values <= blobs.Values + Ciphertexts(chunks)
  {
    if n > 0 {
      UploadKeeps(sha, blobs, chunks, n - 1);
      assert chunks[n - 1] in chunks && chunks[n - 1].ciphertext in Ciphertexts(chunks);
      PutAddsOne(sha, PutFirst(sha, blobs, chunks, n - 1, NoFaults), chunks[n - 1].ciphertext,
                 blobs.Values + Ciphertexts(chunks));
    }
  }

  /** Nothing but a chunk itself is written under its address, and it is once it is sent. */
  lemma {:induction false} SentChunks(sha: Sha, blobs: map<Digest, Bytes>, chunks: seq<Chunk>, c: Chunk, n: nat)
    requires c in chunks && n <= |chunks| && InjectiveOn(sha, Ciphertexts(chunks))
    requires Unspoiled(sha, blobs, c.ciphertext)
    ensures var after := PutFirst(sha, blobs, chunks, n, NoFaults);
            Unspoiled(sha, after, c.ciphertext) && (c in chunks[..n] ==> Holds(sha, after, c.ciphertext))
  {
    if n > 0 {
      SentChunks(sha, blobs, chunks, c, n - 1);
      assert chunks[..n] == chunks[..n - 1] + [chunks[n - 1]];
      assert chunks[n - 1] in chunks;
      assert c.ciphertext in Ciphertexts(chunks) && chunks[n - 1].ciphertext in Ciphertexts(chunks);
    }
  }

  /** From any store, torn files included: after a complete upload a chunk is held under its
      address if and only if no other content stood there before. Only the chunks' own
      ciphertexts are supposed not to collide. */
  lemma UploadStoresIff(sha: Sha, blobs: map<Digest, Bytes>, chunks: seq<Chunk>, c: Chunk)
    requires c in chunks && InjectiveOn(sha, Ciphertexts(chunks))
    ensures Holds(sha, PutAll(sha, blobs, chunks), c.ciphertext) <==> Unspoiled(sha, blobs, c.ciphertext)
  {
    UploadKeeps(sha, blobs, chunks, |chunks|);
    assert chunks[..|chunks|] == chunks;
    if Unspoiled(sha, blobs, c.ciphertext) { SentChunks(sha, blobs, chunks, c, |chunks|); }
  }

  /** So a store whose addresses are honest takes every upload, unless strings collide. */
  lemma UploadStoresAll(sha: Sha, blobs: map<Digest, Bytes>, chunks: seq<Chunk>, c: Chunk)
    requires ContentAddressed(sha, blobs) && c in chunks
    requires InjectiveOn(sha, blobs.Values + Ciphertexts(chunks))
    ensures Holds(sha, PutAll(sha, blobs, chunks), c.ciphertext)
  {
    assert c.ciphertext in Ciphertexts(chunks);
    if sha(c.ciphertext) in blobs { assert blobs[sha(c.ciphertext)] in blobs.Values; }
    UploadStoresIff(sha, blobs, chunks, c);
  }

  /** Uploading chunks whose files are all present changes nothing, torn files included. */
  lemma {:induction false} UploadIsIdempotent(sha: Sha, blobs: map<Digest, Bytes>, chunks: seq<Chunk>, n: nat)
    requires n <= |chunks| && forall c :: c in chunks ==> sha(c.ciphertext) in blobs
    ensures PutFirst(sha, blobs, chunks, n, NoFaults) == blobs
  {
    if n > 0 {
      UploadIsIdempotent(sha, blobs, chunks, n - 1);
      assert chunks[n - 1] in chunks;
    }
  }

  /** A write torn after `kept` bytes is never repaired: uploading the same chunk again, with
      others or alone, leaves its file as it is, so the chunk is held exactly when nothing
      was lost. */
  lemma TornWriteIsKept(sha: Sha, blobs: map<Digest, Bytes>, chunks: seq<Chunk>, c: Chunk, kept: nat)
    requires c in chunks && sha(c.ciphertext) !in blobs
    ensures var torn := Put(sha, blobs, c.ciphertext, Torn(kept));
            var after := PutAll(sha, torn, chunks);
            && sha(c.ciphertext) in after && after[sha(c.ciphertext)] == c.ciphertext[..Min(kept, |c.ciphertext|)]
            && (Holds(sha, after, c.ciphertext) <==> kept >= |c.ciphertext|)
  {
    UploadKeeps(sha, Put(sha, blobs, c.ciphertext, Torn(kept)), chunks, |chunks|);
  }
}
