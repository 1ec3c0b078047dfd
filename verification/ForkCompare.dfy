/** Checkpoints of a view of the log, and the comparison of two of them. */
module ForkCompare {
  import opened Bytes
  import opened Primitives
  import opened OrderedMaps

  datatype ChainEntry = ChainEntry(seqNo: u64, hash: Digest, prev: Digest, epoch: u64)

  datatype View = View(repoId: Bytes32, chain: seq<ChainEntry>, windowFrom: u64, witnesses: map<u64, Bytes>)

  datatype Checkpoint = Checkpoint(view: View, tipBinding: Digest)

  datatype ForkReason = DivergentHead | EpochWitness(epoch: u64) | EpochCommitment(epoch: u64)

  datatype Side = A | B

  datatype Verdict =
    | Consistent
    | PrefixCompatible(ahead: Side)
    | WindowDisjoint
    | Forked(atSeq: Option<u64>, reason: ForkReason)

  datatype CompareError = RepoMismatch | Tampered | BrokenChain | OutsideWindow

  /** The tip binding and the digest of an epoch's (seq, hash) list, as hash functions. */
  datatype Digests = Digests(bind: View -> Digest, epoch: (u64, seq<(u64, Digest)>) -> Digest)

  // ---- The pieces of the comparison ------------------------------------------------

  predicate ChainValid(chain: seq<ChainEntry>) {
    forall i {:trigger chain[i]} :: 0 < i < |chain| ==> LinkValid(chain[i - 1], chain[i])
  }

  predicate LinkValid(before: ChainEntry, e: ChainEntry) {
    e.seqNo == before.seqNo + 1 && e.prev == before.hash && before.epoch <= e.epoch
  }

  method ChainInternallyValid(chain: seq<ChainEntry>) returns (ok: bool)
    ensures ok <==> ChainValid(chain)
  {
    var i := 1;
    while i < |chain|
      invariant 1 <= i
      invariant forall j {:trigger chain[j]} :: 0 < j < i && j < |chain| ==> LinkValid(chain[j - 1], chain[j])
    {
      if chain[i].seqNo != chain[i - 1].seqNo + 1 { return false; }
      if chain[i].prev != chain[i - 1].hash { return false; }
      if chain[i].epoch < chain[i - 1].epoch { return false; }
      i := i + 1;
    }
    ok := true;
  }

  /** The entries a view may speak for under `window`, keyed by sequence number. */
  function Projection(chain: seq<ChainEntry>, window: u64): map<u64, ChainEntry> {
    if chain == [] then map[] else
      var e := chain[|chain| - 1];
      var front := Projection(chain[..|chain| - 1], window);
      if e.epoch >= window then front[e.seqNo := e] else front
  }

  function EpochGroup(chain: seq<ChainEntry>, epoch: u64): seq<ChainEntry> {
    if chain == [] then []
    else if chain[0].epoch == epoch then [chain[0]] + EpochGroup(chain[1..], epoch)
    else EpochGroup(chain[1..], epoch)
  }

  function SeqHashes(group: seq<ChainEntry>): (r: seq<(u64, Digest)>)
    ensures |r| == |group|
  {
    seq(|group|, i requires 0 <= i < |group| => (group[i].seqNo, group[i].hash))
  }

  datatype Commitment = Commitment(lo: u64, hi: u64, digest: Digest)

  function CommitmentOf(d: Digests, chain: seq<ChainEntry>, epoch: u64): Option<Commitment> {
    var group := EpochGroup(chain, epoch);
    if group == [] then None
    else Some(Commitment(group[0].seqNo, group[|group| - 1].seqNo, d.epoch(epoch, SeqHashes(group))))
  }

  function Epochs(chain: seq<ChainEntry>): set<u64> {
    set e | e in chain :: e.epoch
  }

  /** Same span of an epoch, different commitment. */
  predicate CommitmentClash(d: Digests, a: seq<ChainEntry>, b: seq<ChainEntry>, epoch: u64) {
    var ca, cb := CommitmentOf(d, a, epoch), CommitmentOf(d, b, epoch);
    && ca.Some? && cb.Some?
    && ca.value.lo == cb.value.lo && ca.value.hi == cb.value.hi && ca.value.digest != cb.value.digest
  }

  predicate WitnessClash(a: View, b: View, epoch: u64) {
    epoch in a.witnesses && epoch in b.witnesses && a.witnesses[epoch] != b.witnesses[epoch]
  }

  /** Both sides hold an entry at `s` and it is the same head in the same epoch. */
  predicate Agree(pa: map<u64, ChainEntry>, pb: map<u64, ChainEntry>, s: u64) {
    s in pa && s in pb && pa[s].hash == pb[s].hash && pa[s].epoch == pb[s].epoch
  }

  function FirstAt(chain: seq<ChainEntry>, epoch: u64): Option<u64> {
    if chain == [] then None
    else if chain[0].epoch == epoch then Some(chain[0].seqNo)
    else FirstAt(chain[1..], epoch)
  }

  function FirstMismatch(pa: map<u64, ChainEntry>, pb: map<u64, ChainEntry>, lo: u64, hi: u64): Option<u64>
    decreases hi - lo + 1
  {
    if lo > hi then None
    else if !Agree(pa, pb, lo) then Some(lo)
    else if lo == hi then None
    else FirstMismatch(pa, pb, lo + 1, hi)
  }

  /** The first epoch of `keys` that satisfies `bad`. */
  function FirstEpoch(keys: seq<u64>, bad: u64 -> bool): Option<u64> {
    if keys == [] then None
    else if bad(keys[0]) then Some(keys[0])
    else FirstEpoch(keys[1..], bad)
  }

  function Greatest(s: set<u64>): (m: u64)
    requires s != {}
    ensures m in s && forall x :: x in s ==> x <= m
  {
    var keys := SortedKeys(s);
    var x :| x in s;
    assert x in keys;
    keys[|keys| - 1]
  }

  function Stages(d: Digests, a: View, b: View): Verdict {
    var clash := FirstEpoch(SortedKeys(a.witnesses.Keys), (e: u64) => WitnessClash(a, b, e));
    if clash.Some? then Forked(FirstAt(a.chain, clash.value), EpochWitness(clash.value)) else HeadStages(d, a, b)
  }

  function HeadStages(d: Digests, a: View, b: View): (v: Verdict)
    ensures v.Forked? ==> !v.reason.EpochWitness?
  {
    var window := Max(a.windowFrom, b.windowFrom);
    var pa, pb := Projection(a.chain, window), Projection(b.chain, window);
    if pa == map[] || pb == map[] then WindowDisjoint else
    var lo := Max(Least(pa.Keys), Least(pb.Keys));
    var hi := Min(Greatest(pa.Keys), Greatest(pb.Keys));
    if lo > hi then WindowDisjoint else
    var mismatch := FirstMismatch(pa, pb, lo, hi);
    if mismatch.Some? then Forked(mismatch, DivergentHead) else
    var bad := FirstEpoch(SortedKeys(Epochs(a.chain)),
                          (e: u64) => e >= window && CommitmentClash(d, a.chain, b.chain, e));
    if bad.Some? then Forked(Some(CommitmentLo(d, a.chain, bad.value)), EpochCommitment(bad.value))
    else if Greatest(pa.Keys) == Greatest(pb.Keys) then Consistent
    else PrefixCompatible(if Greatest(pa.Keys) < Greatest(pb.Keys) then B else A)
  }

  function CommitmentLo(d: Digests, chain: seq<ChainEntry>, epoch: u64): u64 {
    var c := CommitmentOf(d, chain, epoch);
    if c.Some? then c.value.lo else 0
  }

  function Refusal(d: Digests, a: Checkpoint, b: Checkpoint): Option<CompareError> {
    if a.view.repoId != b.view.repoId then Some(RepoMismatch)
    else if d.bind(a.view) != a.tipBinding || d.bind(b.view) != b.tipBinding then Some(Tampered)
    else if !ChainValid(a.view.chain) || !ChainValid(b.view.chain) then Some(BrokenChain)
    else if !InWindow(a.view) || !InWindow(b.view) then Some(OutsideWindow)
    else None
  }

  predicate InWindow(v: View) {
    forall e :: e in v.chain ==> e.epoch >= v.windowFrom
  }

  /** The comparison as the client runs it. */
  method CompareCheckpoints(d: Digests, a: Checkpoint, b: Checkpoint) returns (r: Result<Verdict, CompareError>)
    ensures Refusal(d, a, b).Some? ==> r == Err(Refusal(d, a, b).value)
    ensures Refusal(d, a, b).None? ==> r == Ok(Stages(d, a.view, b.view))
  {
    if a.view.repoId != b.view.repoId { return Err(RepoMismatch); }
    if d.bind(a.view) != a.tipBinding || d.bind(b.view) != b.tipBinding { return Err(Tampered); }
    var aValid := ChainInternallyValid(a.view.chain);
    var bValid := ChainInternallyValid(b.view.chain);
    if !aValid || !bValid { return Err(BrokenChain); }
    if !InWindow(a.view) || !InWindow(b.view) { return Err(OutsideWindow); }
    var v := CompareViews(d, a.view, b.view);
    r := Ok(v);
  }

  method FindEpoch(keys: seq<u64>, bad: u64 -> bool) returns (r: Option<u64>)
    ensures r == FirstEpoch(keys, bad)
  {
    var i := 0;
    assert keys[0..] == keys;
    while i < |keys|
      invariant 0 <= i <= |keys| && FirstEpoch(keys, bad) == FirstEpoch(keys[i..], bad)
    {
      if bad(keys[i]) { return Some(keys[i]); }
      assert keys[i..][1..] == keys[i + 1..];
      i := i + 1;
    }
    r := None;
  }

  method FindMismatch(pa: map<u64, ChainEntry>, pb: map<u64, ChainEntry>, lo: u64, hi: u64) returns (r: Option<u64>)
    requires lo <= hi
    ensures r == FirstMismatch(pa, pb, lo, hi)
  {
    var s := lo;
    while true
      invariant lo <= s <= hi
      invariant FirstMismatch(pa, pb, lo, hi) == FirstMismatch(pa, pb, s, hi)
      decreases hi - s
    {
      if s in pa && s in pb {
        if pa[s].hash != pb[s].hash || pa[s].epoch != pb[s].epoch { return Some(s); }
      } else {
        return Some(s);
      }
      if s == hi { return None; }
      s := s + 1;
    }
  }

  method CompareViews(d: Digests, a: View, b: View) returns (r: Verdict)
    ensures r == Stages(d, a, b)
  {
    var clash := FindEpoch(SortedKeys(a.witnesses.Keys), (e: u64) => WitnessClash(a, b, e));
    if clash.Some? { return Forked(FirstAt(a.chain, clash.value), EpochWitness(clash.value)); }
    var window := Max(a.windowFrom, b.windowFrom);
    var pa, pb := Projection(a.chain, window), Projection(b.chain, window);
    if pa == map[] || pb == map[] { return WindowDisjoint; }
    var hiA, hiB := Greatest(pa.Keys), Greatest(pb.Keys);
    var lo, hi := Max(Least(pa.Keys), Least(pb.Keys)), Min(hiA, hiB);
    if lo > hi { return WindowDisjoint; }
    var mismatch := FindMismatch(pa, pb, lo, hi);
    if mismatch.Some? { return Forked(mismatch, DivergentHead); }
    var bad := FindEpoch(SortedKeys(Epochs(a.chain)),
                         (e: u64) => e >= window && CommitmentClash(d, a.chain, b.chain, e));
    if bad.Some? { return Forked(Some(CommitmentLo(d, a.chain, bad.value)), EpochCommitment(bad.value)); }
    r := if hiA == hiB then Consistent else if hiA < hiB then PrefixCompatible(B) else PrefixCompatible(A);
  }
}
