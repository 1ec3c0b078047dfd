/** From a bundle and a ref map to a head and back. */
module Bundles {
  import opened Bytes
  import opened Primitives
  import opened RefHeads
  import opened Aead
  import opened Chunker
  import opened BlobStore
  import FetchVerify
  import EpochKeys
  import Dkr

  datatype RefsMap = RefsMap(refs: map<string, string>, head: Option<string>, pushId: string, chunkIds: seq<Digest>)

  /** The text form of the sealed ref map, as a pair of functions. */
  datatype Json = Json(write: RefsMap -> Bytes, read: Bytes -> Option<RefsMap>)

  datatype FetchFailure = CannotOpen | BadJson | MissingFraming | BadDekLength | MissingBlob

  // ---- Planning ----------------------------------------------------------------------------------

  function HeadSealKey(s: Suite, ke: Bytes32, seqNo: u64): Bytes32 {
    s.hkdf32(ke, DomainLabel("head-seal") + BE64(seqNo))
  }

  function Ids(chunks: seq<Chunk>): (r: seq<Digest>)
    ensures |r| == |chunks|
  {
    seq<Digest>(|chunks|, i requires 0 <= i < |chunks| => chunks[i].id)
  }

  function Concat(ids: seq<Digest>): Bytes {
    if ids == [] then [] else Concat(ids[..|ids| - 1]) + ids[|ids| - 1]
  }

  /** Where the head goes, and the keys it is made under. */
  datatype Place = Place(prev: Digest, seqNo: u64, epoch: u64, ke: Bytes32, mk: Bytes32, nonFf: bool)

  predicate Sealable(json: Json, m: RefsMap) { |json.write(m)| + OVERHEAD < TWO_TO_32 }

  function DekWrap(s: Suite, ke: Bytes32, seqNo: u64, dek: Bytes32): Opaque {
    Seal(s, HeadSealKey(s, ke, seqNo), DomainLabel("dek-wrap"), dek, DeterministicNonce(0))
  }

  function EncRefs(s: Suite, json: Json, ke: Bytes32, seqNo: u64, m: RefsMap): Opaque
    requires Sealable(json, m)
  {
    Seal(s, HeadSealKey(s, ke, seqNo), DomainLabel("refs"), json.write(m), DeterministicNonce(1))
  }

  function PlannedHead(s: Suite, json: Json, f: Framing, p: Place, m: RefsMap): RefHead
    requires Sealable(json, m)
  {
    var root := s.sha512(Concat(m.chunkIds));
    RefHead(f.repo, p.seqNo, EncRefs(s, json, p.ke, p.seqNo, m), root, DekWrap(s, p.ke, p.seqNo, f.dek), p.prev,
            p.epoch, FetchVerify.EpochTag(s, p.mk, p.epoch, root, p.seqNo), p.nonFf, [], None)
  }

  function PlannedRefs(s: Suite, f: Framing, data: Bytes, refs: map<string, string>, symref: Option<string>): RefsMap {
    RefsMap(refs, symref, f.pushId, Ids(ChunksOf(s, f, data)))
  }

  method ConcatIds(chunks: seq<Chunk>) returns (hashed: Bytes)
    ensures hashed == Concat(Ids(chunks))
  {
    hashed := [];
    for i := 0 to |chunks|
      invariant hashed == Concat(Ids(chunks)[..i])
    {
      assert Ids(chunks)[..i + 1][..i] == Ids(chunks)[..i];
      hashed := hashed + chunks[i].id;
    }
    assert Ids(chunks)[..|chunks|] == Ids(chunks);
  }

  /** The plan before signing. The data key, the push id and the nonces are drawn by the caller. */
  method BuildPushPlan(s: Suite, json: Json, f: Framing, p: Place, reader: Reader, refs: map<string, string>,
                       symref: Option<string>)
    returns (r: Result<(seq<Chunk>, RefHead, RefsMap), ReadError>)
    requires reader.Valid() && Sealable(json, PlannedRefs(s, f, reader.data, refs, symref))
    modifies reader`pos, reader`script
    ensures r.Err? ==> Failed in old(reader.script)
    ensures r.Ok? ==>
              var m := PlannedRefs(s, f, reader.data, refs, symref);
              r.value == (ChunksOf(s, f, reader.data), PlannedHead(s, json, f, p, m), m)
  {
    var sealKey := HeadSealKey(s, p.ke, p.seqNo);
    var counter := 0;
    var chunks :- BundleChunksSeek(s, f, reader);
    var hashed := ConcatIds(chunks);
    var root := s.sha512(hashed);
    var m := RefsMap(refs, symref, f.pushId, Ids(chunks));
    var dekWrap := SealDeterministic(s, sealKey, DomainLabel("dek-wrap"), f.dek, counter);
    counter := counter + 1;
    var encRefs := SealDeterministic(s, sealKey, DomainLabel("refs"), json.write(m), counter);
    var head := RefHead(f.repo, p.seqNo, encRefs.value, root, dekWrap.value, p.prev, p.epoch,
                        FetchVerify.EpochTag(s, p.mk, p.epoch, root, p.seqNo), p.nonFf, [], None);
    r := Ok((chunks, head, m));
  }

  // ---- Fetching ------------------------------------------------------------------------------------

  function OpenRefsMap(s: Suite, json: Json, ke: Bytes32, h: RefHead): Result<RefsMap, FetchFailure> {
    var raw := Open(s, HeadSealKey(s, ke, h.seqNo), DomainLabel("refs"), h.encRefs);
    if raw.Err? then Err(CannotOpen) else
      var m := json.read(raw.value);
      if m.None? then Err(BadJson) else Ok(m.value)
  }

  function UnwrapDek(s: Suite, ke: Bytes32, h: RefHead): Result<Bytes32, FetchFailure> {
    var raw := Open(s, HeadSealKey(s, ke, h.seqNo), DomainLabel("dek-wrap"), h.dekWrap);
    if raw.Err? then Err(CannotOpen) else if |raw.value| != 32 then Err(BadDekLength) else Ok(raw.value)
  }

  predicate SmallBlobs(blobs: map<Digest, Bytes>) {
    forall id :: id in blobs ==> |blobs[id]| < TWO_TO_64
  }

  function OpenChunk(s: Suite, repo: Bytes32, m: RefsMap, dek: Bytes32, blobs: map<Digest, Bytes>, i: nat)
    : Result<Bytes, FetchFailure>
    requires i < |m.chunkIds| && SmallBlobs(blobs)
  {
    if m.chunkIds[i] !in blobs then Err(MissingBlob) else
      var plain := Open(s, dek, ChunkAad(repo, m.pushId, Low32(i), Low32(|m.chunkIds|)), blobs[m.chunkIds[i]]);
      if plain.Err? then Err(CannotOpen) else Ok(plain.value)
  }

  function OpenChunks(s: Suite, repo: Bytes32, m: RefsMap, dek: Bytes32, blobs: map<Digest, Bytes>, n: nat)
    : Result<Bytes, FetchFailure>
    requires n <= |m.chunkIds| && SmallBlobs(blobs)
  {
    if n == 0 then Ok([]) else
      var front :- OpenChunks(s, repo, m, dek, blobs, n - 1);
      var last :- OpenChunk(s, repo, m, dek, blobs, n - 1);
      Ok(front + last)
  }

  /** The bundle of a head under epoch key `ke`, from the blobs in `blobs`. */
  function Fetched(s: Suite, json: Json, ke: Bytes32, blobs: map<Digest, Bytes>, h: RefHead)
    : Result<(RefsMap, Bytes), FetchFailure>
    requires SmallBlobs(blobs)
  {
    var m :- OpenRefsMap(s, json, ke, h);
    if m.pushId == "" || m.chunkIds == [] then Err(MissingFraming) else
      var dek :- UnwrapDek(s, ke, h);
      var plain :- OpenChunks(s, h.repoId, m, dek, blobs, |m.chunkIds|);
      Ok((m, plain))
  }

  method FetchHeadBundle(s: Suite, json: Json, ke: Bytes32, store: Blobs, h: RefHead)
    returns (r: Result<(RefsMap, Bytes), FetchFailure>)
    requires SmallBlobs(store.files)
    ensures r == Fetched(s, json, ke, store.files, h)
  {
    var m :- OpenRefsMap(s, json, ke, h);
    if m.pushId == "" || m.chunkIds == [] { return Err(MissingFraming); }
    var dek :- UnwrapDek(s, ke, h);
    var count := Low32(|m.chunkIds|);
    var plain: Bytes := [];
    for i := 0 to |m.chunkIds|
      invariant OpenChunks(s, h.repoId, m, dek, store.files, i) == Ok(plain)
    {
      var ct := store.Get(m.chunkIds[i]);
      if ct.None? {
        OpenChunksStops(s, h.repoId, m, dek, store.files, i);
        return Err(MissingBlob);
      }
      var chunk := OpenSealed(s, dek, ChunkAad(h.repoId, m.pushId, Low32(i), count), ct.value);
      if chunk.Err? {
        OpenChunksStops(s, h.repoId, m, dek, store.files, i);
        return Err(CannotOpen);
      }
      plain := plain + chunk.value;
    }
    r := Ok((m, plain));
  }

  lemma OpenChunksStops(s: Suite, repo: Bytes32, m: RefsMap, dek: Bytes32, blobs: map<Digest, Bytes>, i: nat)
    requires i < |m.chunkIds| && SmallBlobs(blobs)
    requires OpenChunks(s, repo, m, dek, blobs, i).Ok? && OpenChunk(s, repo, m, dek, blobs, i).Err?
    ensures OpenChunks(s, repo, m, dek, blobs, |m.chunkIds|) == Err(OpenChunk(s, repo, m, dek, blobs, i).error)
  {
    StaysStopped(s, repo, m, dek, blobs, i, |m.chunkIds|);
  }

  lemma {:induction false} StaysStopped(s: Suite, repo: Bytes32, m: RefsMap, dek: Bytes32, blobs: map<Digest, Bytes>,
                                        i: nat, n: nat)
    requires i < n <= |m.chunkIds| && SmallBlobs(blobs)
    requires OpenChunks(s, repo, m, dek, blobs, i).Ok? && OpenChunk(s, repo, m, dek, blobs, i).Err?
    ensures OpenChunks(s, repo, m, dek, blobs, n) == Err(OpenChunk(s, repo, m, dek, blobs, i).error)
    decreases n
  {
    if i + 1 < n { StaysStopped(s, repo, m, dek, blobs, i, n - 1); }
  }

  // ---- The round trip --------------------------------------------------------------------------------

  ghost predicate HoldsChunks(s: Suite, blobs: map<Digest, Bytes>, chunks: seq<Chunk>) {
    forall i :: 0 <= i < |chunks| ==> Holds(s.sha512, blobs, chunks[i].ciphertext)
  }

  lemma {:induction false} ChunksReopen(s: Suite, f: Framing, data: Bytes, m: RefsMap, blobs: map<Digest, Bytes>,
                                        n: nat)
    requires m.pushId == f.pushId && m.chunkIds == Ids(ChunksOf(s, f, data))
    requires SmallBlobs(blobs) && HoldsChunks(s, blobs, ChunksOf(s, f, data))
    requires n <= |m.chunkIds|
    ensures OpenChunks(s, f.repo, m, f.dek, blobs, n) == Ok(Joined(data, n))
  {
    if n > 0 {
      ChunksReopen(s, f, data, m, blobs, n - 1);
      ChunkReopens(s, f, data, m, blobs, n - 1);
    }
  }

  lemma StoredOpens(s: Suite, repo: Bytes32, m: RefsMap, dek: Bytes32, blobs: map<Digest, Bytes>, i: nat,
                    plain: Bytes, nonce: Bytes12)
    requires i < |m.chunkIds| && SmallBlobs(blobs) && m.chunkIds[i] in blobs && Fits(plain)
    requires blobs[m.chunkIds[i]] == Seal(s, dek, ChunkAad(repo, m.pushId, Low32(i), Low32(|m.chunkIds|)), plain, nonce)
    ensures OpenChunk(s, repo, m, dek, blobs, i) == Ok(plain)
  {
    OpenUndoesSeal(s, dek, ChunkAad(repo, m.pushId, Low32(i), Low32(|m.chunkIds|)), plain, nonce);
  }

  lemma ChunkHeld(s: Suite, f: Framing, data: Bytes, blobs: map<Digest, Bytes>, i: nat)
    requires HoldsChunks(s, blobs, ChunksOf(s, f, data)) && i < ChunkCount(|data|)
    ensures var c := ChunkOf(s, f, data, i, ChunkCount(|data|));
            Ids(ChunksOf(s, f, data))[i] == c.id && c.id in blobs && blobs[c.id] == c.ciphertext
  {
    assert ChunksOf(s, f, data)[i] == ChunkOf(s, f, data, i, ChunkCount(|data|));
    assert Holds(s.sha512, blobs, ChunksOf(s, f, data)[i].ciphertext);
  }

  lemma ChunkStored(s: Suite, f: Framing, data: Bytes, m: RefsMap, blobs: map<Digest, Bytes>, i: nat)
    requires m.pushId == f.pushId && m.chunkIds == Ids(ChunksOf(s, f, data))
    requires HoldsChunks(s, blobs, ChunksOf(s, f, data)) && i < |m.chunkIds|
    ensures m.chunkIds[i] in blobs
    ensures blobs[m.chunkIds[i]]
         == Seal(s, f.dek, ChunkAad(f.repo, m.pushId, Low32(i), Low32(|m.chunkIds|)), Piece(data, i), f.nonces(i))
  {
    assert Low32(i) == i && Low32(|m.chunkIds|) == ChunkCount(|data|);
    ChunkHeld(s, f, data, blobs, i);
  }

  lemma ChunkReopens(s: Suite, f: Framing, data: Bytes, m: RefsMap, blobs: map<Digest, Bytes>, i: nat)
    requires m.pushId == f.pushId && m.chunkIds == Ids(ChunksOf(s, f, data))
    requires SmallBlobs(blobs) && HoldsChunks(s, blobs, ChunksOf(s, f, data))
    requires i < |m.chunkIds|
    ensures OpenChunk(s, f.repo, m, f.dek, blobs, i) == Ok(Piece(data, i))
  {
    ChunkStored(s, f, data, m, blobs, i);
    StoredOpens(s, f.repo, m, f.dek, blobs, i, Piece(data, i), f.nonces(i));
  }

  lemma PlannedRefsOpen(s: Suite, json: Json, f: Framing, p: Place, m: RefsMap)
    requires Sealable(json, m) && json.read(json.write(m)) == Some(m)
    ensures OpenRefsMap(s, json, p.ke, PlannedHead(s, json, f, p, m)) == Ok(m)
  {
    OpenUndoesSeal(s, HeadSealKey(s, p.ke, p.seqNo), DomainLabel("refs"), json.write(m), DeterministicNonce(1));
  }

  lemma PlannedDekOpens(s: Suite, json: Json, f: Framing, p: Place, m: RefsMap)
    requires Sealable(json, m)
    ensures UnwrapDek(s, p.ke, PlannedHead(s, json, f, p, m)) == Ok(f.dek)
    ensures PlannedHead(s, json, f, p, m).repoId == f.repo
  {
    OpenUndoesSeal(s, HeadSealKey(s, p.ke, p.seqNo), DomainLabel("dek-wrap"), f.dek, DeterministicNonce(0));
  }

  lemma FetchedParts(s: Suite, json: Json, ke: Bytes32, blobs: map<Digest, Bytes>, h: RefHead, m: RefsMap, dek: Bytes32,
                     plain: Bytes)
    requires SmallBlobs(blobs) && m.pushId != ""
    requires OpenRefsMap(s, json, ke, h) == Ok(m) && UnwrapDek(s, ke, h) == Ok(dek)
    requires OpenChunks(s, h.repoId, m, dek, blobs, |m.chunkIds|) == Ok(plain)
    ensures Fetched(s, json, ke, blobs, h) == if m.chunkIds == [] then Err(MissingFraming) else Ok((m, plain))
  {
  }

  /** `m` frames the chunks of `data`. */
  ghost predicate Frames(s: Suite, json: Json, f: Framing, data: Bytes, m: RefsMap) {
    && m.pushId == f.pushId && f.pushId != "" && m.chunkIds == Ids(ChunksOf(s, f, data))
    && Sealable(json, m) && json.read(json.write(m)) == Some(m)
  }

  lemma FramedChunksReopen(s: Suite, json: Json, f: Framing, data: Bytes, m: RefsMap, blobs: map<Digest, Bytes>)
    requires Frames(s, json, f, data, m)
    requires SmallBlobs(blobs) && HoldsChunks(s, blobs, ChunksOf(s, f, data))
    ensures OpenChunks(s, f.repo, m, f.dek, blobs, |m.chunkIds|) == Ok(Joined(data, ChunkCount(|data|)))
    ensures m.chunkIds == [] <==> ChunkCount(|data|) == 0
  {
    ChunksReopen(s, f, data, m, blobs, |m.chunkIds|);
  }

  /** A planned head whose chunks are stored fetches back the ref map and exactly the part
      of the bundle that its chunks cover. */
  lemma FetchInvertsPlan(s: Suite, json: Json, f: Framing, p: Place, data: Bytes, m: RefsMap, blobs: map<Digest, Bytes>)
    requires Frames(s, json, f, data, m)
    requires SmallBlobs(blobs) && HoldsChunks(s, blobs, ChunksOf(s, f, data))
    ensures Fetched(s, json, p.ke, blobs, PlannedHead(s, json, f, p, m))
         == if ChunkCount(|data|) == 0 then Err(MissingFraming) else Ok((m, Joined(data, ChunkCount(|data|))))
  {
    PlannedRefsOpen(s, json, f, p, m);
    PlannedDekOpens(s, json, f, p, m);
    FramedChunksReopen(s, json, f, data, m, blobs);
    FetchedParts(s, json, p.ke, blobs, PlannedHead(s, json, f, p, m), m, f.dek, Joined(data, ChunkCount(|data|)));
  }

  /** The whole bundle comes back exactly when the number of its chunks fits 32 bits. */
  lemma RoundTripIff(s: Suite, json: Json, f: Framing, p: Place, data: Bytes, m: RefsMap, blobs: map<Digest, Bytes>)
    requires Frames(s, json, f, data, m)
    requires SmallBlobs(blobs) && HoldsChunks(s, blobs, ChunksOf(s, f, data))
    ensures Fetched(s, json, p.ke, blobs, PlannedHead(s, json, f, p, m)) == Ok((m, data))
            <==> Pieces(|data|) < TWO_TO_32
  {
    FetchInvertsPlan(s, json, f, p, data, m, blobs);
    ChunksCarryAllIff(data);
  }

  /** The same through the store, whatever it held before: upload the planned chunks, then
      fetch. A file that a torn write left under a chunk's address is the one obstacle. */
  lemma PushThenFetch(s: Suite, json: Json, f: Framing, p: Place, data: Bytes, m: RefsMap, before: map<Digest, Bytes>)
    requires Frames(s, json, f, data, m) && Pieces(|data|) < TWO_TO_32 && SmallBlobs(before)
    requires forall c :: c in ChunksOf(s, f, data) ==> Unspoiled(s.sha512, before, c.ciphertext)
    requires InjectiveOn(s.sha512, Ciphertexts(ChunksOf(s, f, data)))
    ensures var after := PutAll(s.sha512, before, ChunksOf(s, f, data));
            && SmallBlobs(after)
            && Fetched(s, json, p.ke, after, PlannedHead(s, json, f, p, m)) == Ok((m, data))
  {
    var chunks := ChunksOf(s, f, data);
    var after := PutAll(s.sha512, before, chunks);
    StaysSmall(s, f, data, before);
    forall i | 0 <= i < |chunks|
      ensures Holds(s.sha512, after, chunks[i].ciphertext)
    {
      UploadStoresIff(s.sha512, before, chunks, chunks[i]);
    }
    RoundTripIff(s, json, f, p, data, m, after);
  }

  lemma StaysSmall(s: Suite, f: Framing, data: Bytes, before: map<Digest, Bytes>)
    requires SmallBlobs(before)
    ensures SmallBlobs(PutAll(s.sha512, before, ChunksOf(s, f, data)))
  {
    var chunks := ChunksOf(s, f, data);
    var after := PutAll(s.sha512, before, chunks);
    UploadKeeps(s.sha512, before, chunks, |chunks|);
    forall id | id in after
      ensures |after[id]| < TWO_TO_64
    {
      assert after[id] in before.Values + Ciphertexts(chunks);
      if after[id] in before.Values {
        var k :| k in before && before[k] == after[id];
      } else {
        var c :| c in chunks && c.ciphertext == after[id];
        var i :| 0 <= i < |chunks| && chunks[i] == c;
        assert c == ChunkOf(s, f, data, i, ChunkCount(|data|));
      }
    }
  }

  lemma {:induction false} AnyFailureStops(s: Suite, repo: Bytes32, m: RefsMap, dek: Bytes32, blobs: map<Digest, Bytes>,
                                           i: nat, n: nat)
    requires i < n <= |m.chunkIds| && SmallBlobs(blobs) && OpenChunk(s, repo, m, dek, blobs, i).Err?
    ensures OpenChunks(s, repo, m, dek, blobs, n).Err?
    decreases n
  {
    if i + 1 < n { AnyFailureStops(s, repo, m, dek, blobs, i, n - 1); }
  }

  /** A chunk file torn within its fixed overhead makes the whole head unreadable. */
  lemma TornChunkFailsFetch(s: Suite, json: Json, f: Framing, p: Place, data: Bytes, m: RefsMap,
                            blobs: map<Digest, Bytes>, i: nat)
    requires Frames(s, json, f, data, m) && SmallBlobs(blobs) && i < |m.chunkIds|
    requires m.chunkIds[i] in blobs && |blobs[m.chunkIds[i]]| < OVERHEAD
    ensures Fetched(s, json, p.ke, blobs, PlannedHead(s, json, f, p, m)).Err?
  {
    PlannedRefsOpen(s, json, f, p, m);
    PlannedDekOpens(s, json, f, p, m);
    AnyFailureStops(s, f.repo, m, f.dek, blobs, i, |m.chunkIds|);
  }

  /** A head sealed in an epoch that did not begin with a forward-only invitation is fetched
      with the admin's later material, whatever rotations and invitations came after, while
      the group is in its first segment. */
  lemma HistorySurvivesRotation(s: Suite, json: Json, f: Framing, p: Place, data: Bytes, m: RefsMap,
                                blobs: map<Digest, Bytes>, run: seq<EpochKeys.Event>, i: nat,
                                earlier: EpochKeys.Draws, now: EpochKeys.Draws)
    requires EpochKeys.GroupRun(run) && i < |run| - 1 && run[|run| - 1].epoch < Dkr.CAPACITY
    requires run[i].kind != EpochKeys.InviteForwardOnly && p.epoch == run[i].epoch
    requires EpochKeys.GroupRun(run[..i + 1])
    requires EpochKeys.Bounded(EpochKeys.MaterialAfter(run[..i + 1]), p.epoch)
    requires EpochKeys.KeyAt(s.hkdf32, EpochKeys.MaterialAfter(run[..i + 1]), p.epoch, earlier) == Ok(p.ke)
    requires Frames(s, json, f, data, m) && Pieces(|data|) < TWO_TO_32
    requires SmallBlobs(blobs) && HoldsChunks(s, blobs, ChunksOf(s, f, data))
    ensures EpochKeys.Bounded(EpochKeys.MaterialAfter(run), p.epoch)
    ensures var key := EpochKeys.KeyAt(s.hkdf32, EpochKeys.MaterialAfter(run), p.epoch, now);
            key.Ok? && Fetched(s, json, key.value, blobs, PlannedHead(s, json, f, p, m)) == Ok((m, data))
  {
    LaterKey(s.hkdf32, run, i, p.epoch, p.ke, earlier, now);
    RoundTripIff(s, json, f, p, data, m, blobs);
  }

  /** The key an epoch's heads were sealed with is the one derived later. */
  lemma LaterKey(hkdf: EpochKeys.Kdf, run: seq<EpochKeys.Event>, i: nat, epoch: u64, ke: Bytes32,
                 earlier: EpochKeys.Draws, now: EpochKeys.Draws)
    requires EpochKeys.GroupRun(run) && i < |run| - 1 && run[|run| - 1].epoch < Dkr.CAPACITY
    requires run[i].kind != EpochKeys.InviteForwardOnly && epoch == run[i].epoch
    requires EpochKeys.GroupRun(run[..i + 1]) && EpochKeys.Bounded(EpochKeys.MaterialAfter(run[..i + 1]), epoch)
    requires EpochKeys.KeyAt(hkdf, EpochKeys.MaterialAfter(run[..i + 1]), epoch, earlier) == Ok(ke)
    ensures EpochKeys.Bounded(EpochKeys.MaterialAfter(run), epoch)
    ensures EpochKeys.KeyAt(hkdf, EpochKeys.MaterialAfter(run), epoch, now) == Ok(ke)
  {
    EpochKeys.CurrentEpoch(run);
    EpochKeys.RotationOrphansNothing(hkdf, run, i, earlier, now);
  }
}
