/** The staged comparison refines a short specification, and what that gives. */
module ForkTheory {
  import opened Bytes
  import opened Primitives
  import opened OrderedMaps
  import opened ForkCompare

  function Window(a: View, b: View): u64 { Max(a.windowFrom, b.windowFrom) }

  /** Sequence numbers that both views hold inside the common window. */
  function Shared(a: View, b: View): set<u64> {
    Projection(a.chain, Window(a, b)).Keys * Projection(b.chain, Window(a, b)).Keys
  }

  function Differing(a: View, b: View): set<u64> {
    set s | s in Shared(a, b) && !Agree(Projection(a.chain, Window(a, b)), Projection(b.chain, Window(a, b)), s)
  }

  function Clashing(a: View, b: View): set<u64> {
    set e | e in a.witnesses && WitnessClash(a, b, e)
  }

  /** The verdict without stages: a witness clash, else nothing shared, else the first
      shared head that differs, else which side holds more. */
  function Spec(a: View, b: View): Verdict {
    if Clashing(a, b) != {} then
      Forked(FirstAt(a.chain, Least(Clashing(a, b))), EpochWitness(Least(Clashing(a, b))))
    else if Shared(a, b) == {} then WindowDisjoint
    else if Differing(a, b) != {} then Forked(Some(Least(Differing(a, b))), DivergentHead)
    else
      var tipA := Greatest(Projection(a.chain, Window(a, b)).Keys);
      var tipB := Greatest(Projection(b.chain, Window(a, b)).Keys);
      if tipA == tipB then Consistent else PrefixCompatible(if tipA < tipB then B else A)
  }

  // ---- Valid chains are contiguous and monotone ----------------------------------------

  lemma {:induction false} ValidChainShape(chain: seq<ChainEntry>, i: nat, j: nat)
    requires ChainValid(chain) && i <= j < |chain|
    ensures chain[j].seqNo == chain[i].seqNo + (j - i) && chain[i].epoch <= chain[j].epoch
  {
    if i < j {
      ValidChainShape(chain, i, j - 1);
      assert LinkValid(chain[j - 1], chain[j]);
    }
  }

  lemma ValidPrefix(chain: seq<ChainEntry>, n: nat)
    requires ChainValid(chain) && n <= |chain|
    ensures ChainValid(chain[..n])
  {
    var front := chain[..n];
    forall i {:trigger front[i]} | 0 < i < n
      ensures LinkValid(front[i - 1], front[i])
    {
      assert LinkValid(chain[i - 1], chain[i]);
    }
  }

  lemma {:induction false} ProjectionHas(chain: seq<ChainEntry>, window: u64, i: nat)
    requires ChainValid(chain) && i < |chain| && chain[i].epoch >= window
    ensures chain[i].seqNo in Projection(chain, window) && Projection(chain, window)[chain[i].seqNo] == chain[i]
  {
    var n := |chain| - 1;
    if i < n {
      ValidPrefix(chain, n);
      ProjectionHas(chain[..n], window, i);
      ValidChainShape(chain, i, n);
    }
  }

  lemma {:induction false} ProjectionOnly(chain: seq<ChainEntry>, window: u64, s: u64) returns (i: nat)
    requires s in Projection(chain, window)
    ensures i < |chain| && chain[i].seqNo == s && chain[i].epoch >= window
  {
    var n := |chain| - 1;
    if s in Projection(chain[..n], window) {
      i := ProjectionOnly(chain[..n], window, s);
    } else {
      i := n;
    }
  }

  lemma ProjectionHolds(chain: seq<ChainEntry>, window: u64)
    requires ChainValid(chain)
    ensures var p := Projection(chain, window);
            && (forall i :: 0 <= i < |chain| && chain[i].epoch >= window ==>
                  chain[i].seqNo in p && p[chain[i].seqNo] == chain[i])
            && (forall s :: s in p ==> exists i :: 0 <= i < |chain| && chain[i].seqNo == s && chain[i].epoch >= window)
  {
    var p := Projection(chain, window);
    forall i | 0 <= i < |chain| && chain[i].epoch >= window
      ensures chain[i].seqNo in p && p[chain[i].seqNo] == chain[i]
    {
      ProjectionHas(chain, window, i);
    }
    forall s | s in p
      ensures exists i :: 0 <= i < |chain| && chain[i].seqNo == s && chain[i].epoch >= window
    {
      var i := ProjectionOnly(chain, window, s);
    }
  }

  /** The position of a held sequence number. */
  lemma HeldAt(chain: seq<ChainEntry>, window: u64, s: u64) returns (i: nat)
    requires ChainValid(chain) && s in Projection(chain, window)
    ensures i < |chain| && chain[i].seqNo == s && chain[i].epoch >= window
    ensures Projection(chain, window)[s] == chain[i]
  {
    ProjectionHolds(chain, window);
    i :| 0 <= i < |chain| && chain[i].seqNo == s && chain[i].epoch >= window;
  }

  /** No holes: between two held numbers everything is held. */
  lemma ProjectionConvex(chain: seq<ChainEntry>, window: u64, s: u64, m: u64, t: u64)
    requires ChainValid(chain)
    requires s in Projection(chain, window) && t in Projection(chain, window) && s <= m <= t
    ensures m in Projection(chain, window)
  {
    var i := HeldAt(chain, window, s);
    var j := HeldAt(chain, window, t);
    if j < i { ValidChainShape(chain, j, i); }
    ValidChainShape(chain, i, j);
    var k := i + (m - s);
    ValidChainShape(chain, i, k);
    ProjectionHolds(chain, window);
    assert chain[k].seqNo == m;
  }

  /** The compared range is exactly the shared numbers, so the hole branch never runs. */
  lemma RangeIsShared(a: View, b: View, lo: u64, hi: u64, m: u64)
    requires ChainValid(a.chain) && ChainValid(b.chain)
    requires IsRange(a, b, lo, hi)
    ensures m in Shared(a, b) <==> lo <= m <= hi
  {
    var w := Window(a, b);
    var pa, pb := Projection(a.chain, w), Projection(b.chain, w);
    if lo <= m <= hi {
      ProjectionConvex(a.chain, w, Least(pa.Keys), m, Greatest(pa.Keys));
      ProjectionConvex(b.chain, w, Least(pb.Keys), m, Greatest(pb.Keys));
    }
  }

  lemma {:induction false} FirstMismatchIsLeast(pa: map<u64, ChainEntry>, pb: map<u64, ChainEntry>, lo: u64, hi: u64)
    ensures var r := FirstMismatch(pa, pb, lo, hi);
            && (r.None? ==> forall s :: lo <= s <= hi ==> Agree(pa, pb, s))
            && (r.Some? ==> lo <= r.value <= hi && !Agree(pa, pb, r.value)
                            && forall s :: lo <= s < r.value ==> Agree(pa, pb, s))
    decreases hi - lo + 1
  {
    if lo < hi && Agree(pa, pb, lo) { FirstMismatchIsLeast(pa, pb, lo + 1, hi); }
  }

  lemma {:induction false} FirstEpochIsLeast(keys: seq<u64>, bad: u64 -> bool)
    requires Ascending(keys)
    ensures var r := FirstEpoch(keys, bad);
            && (r.None? ==> forall k :: k in keys ==> !bad(k))
            && (r.Some? ==> r.value in keys && bad(r.value) && forall k :: k in keys && bad(k) ==> r.value <= k)
  {
    if keys != [] && !bad(keys[0]) { FirstEpochIsLeast(keys[1..], bad); }
  }

  // ---- Equal epoch spans lie inside the compared range ------------------------------------

  ghost predicate Monotone(chain: seq<ChainEntry>) {
    forall i, j :: 0 <= i <= j < |chain| ==> chain[i].epoch <= chain[j].epoch
  }

  lemma MonotoneTail(chain: seq<ChainEntry>)
    requires Monotone(chain) && chain != []
    ensures Monotone(chain[1..])
  {
    var rest := chain[1..];
    assert forall i :: 0 <= i < |rest| ==> rest[i] == chain[i + 1];
  }

  lemma {:induction false} GroupIsSlice(chain: seq<ChainEntry>, epoch: u64) returns (p: nat)
    requires Monotone(chain)
    ensures p + |EpochGroup(chain, epoch)| <= |chain|
    ensures EpochGroup(chain, epoch) == chain[p..p + |EpochGroup(chain, epoch)|]
    ensures EpochGroup(chain, epoch) != [] && chain[0].epoch == epoch ==> p == 0
  {
    if chain == [] {
      p := 0;
    } else {
      MonotoneTail(chain);
      var rest, g := chain[1..], EpochGroup(chain[1..], epoch);
      var k := GroupIsSlice(rest, epoch);
      if chain[0].epoch == epoch {
        p := 0;
        if g != [] { GroupStartsAtOnce(chain, epoch, k); }
        assert chain[0..1 + |g|] == [chain[0]] + rest[0..|g|];
      } else {
        p := k + 1;
        assert chain[p..p + |g|] == rest[k..k + |g|];
      }
    }
  }

  lemma {:induction false} GroupHasEpoch(chain: seq<ChainEntry>, epoch: u64)
    ensures forall e :: e in EpochGroup(chain, epoch) ==> e.epoch == epoch
  {
    if chain != [] { GroupHasEpoch(chain[1..], epoch); }
  }

  lemma GroupStartsAtOnce(chain: seq<ChainEntry>, epoch: u64, k: nat)
    requires Monotone(chain) && |chain| > 1 && chain[0].epoch == epoch && k < |chain| - 1
    requires EpochGroup(chain[1..], epoch) != [] && EpochGroup(chain[1..], epoch)[0] == chain[k + 1]
    requires chain[1].epoch == epoch ==> k == 0
    ensures k == 0
  {
    GroupHasEpoch(chain[1..], epoch);
    assert EpochGroup(chain[1..], epoch)[0] in EpochGroup(chain[1..], epoch);
    assert chain[0].epoch <= chain[1].epoch <= chain[k + 1].epoch;
  }

  lemma GroupOf(chain: seq<ChainEntry>, epoch: u64) returns (p: nat)
    requires ChainValid(chain)
    ensures p + |EpochGroup(chain, epoch)| <= |chain|
    ensures EpochGroup(chain, epoch) == chain[p..p + |EpochGroup(chain, epoch)|]
    ensures forall e :: e in EpochGroup(chain, epoch) ==> e.epoch == epoch
  {
    forall i, j | 0 <= i <= j < |chain|
      ensures chain[i].epoch <= chain[j].epoch
    {
      ValidChainShape(chain, i, j);
    }
    GroupHasEpoch(chain, epoch);
    p := GroupIsSlice(chain, epoch);
  }

  lemma GroupEntry(chain: seq<ChainEntry>, epoch: u64, window: u64, i: nat)
    requires ChainValid(chain) && window <= epoch && i < |EpochGroup(chain, epoch)|
    ensures var g := EpochGroup(chain, epoch);
            var s := g[0].seqNo + i;
            g[i].seqNo == s && s in Projection(chain, window) && Projection(chain, window)[s] == g[i]
  {
    var p := GroupOf(chain, epoch);
    var g := EpochGroup(chain, epoch);
    assert g[i] == chain[p + i] && g[0] == chain[p] && g[i] in g;
    ValidChainShape(chain, p, p + i);
    ProjectionHolds(chain, window);
  }

  /** Views that agree on everything shared never clash on an epoch commitment. */
  lemma NoCommitmentClash(d: Digests, a: View, b: View, epoch: u64)
    requires ChainValid(a.chain) && ChainValid(b.chain) && epoch >= Window(a, b)
    requires Differing(a, b) == {}
    ensures !CommitmentClash(d, a.chain, b.chain, epoch)
  {
    var w := Window(a, b);
    var ga, gb := EpochGroup(a.chain, epoch), EpochGroup(b.chain, epoch);
    if ga != [] && gb != [] && ga[0].seqNo == gb[0].seqNo && ga[|ga| - 1].seqNo == gb[|gb| - 1].seqNo {
      GroupEntry(a.chain, epoch, w, |ga| - 1);
      GroupEntry(b.chain, epoch, w, |gb| - 1);
      forall i | 0 <= i < |ga|
        ensures SeqHashes(ga)[i] == SeqHashes(gb)[i]
      {
        GroupEntry(a.chain, epoch, w, i);
        GroupEntry(b.chain, epoch, w, i);
        assert ga[i].seqNo in Shared(a, b) && ga[i].seqNo !in Differing(a, b);
      }
      assert SeqHashes(ga) == SeqHashes(gb);
    }
  }

  // ---- The refinement ---------------------------------------------------------------------

  lemma ClashStage(a: View, b: View)
    ensures var r := FirstEpoch(SortedKeys(a.witnesses.Keys), (e: u64) => WitnessClash(a, b, e));
            r == if Clashing(a, b) == {} then None else Some(Least(Clashing(a, b)))
  {
    var keys := SortedKeys(a.witnesses.Keys);
    FirstEpochIsLeast(keys, (e: u64) => WitnessClash(a, b, e));
    var r := FirstEpoch(keys, (e: u64) => WitnessClash(a, b, e));
    if r.Some? { assert r.value in Clashing(a, b); }
    if Clashing(a, b) != {} { assert Least(Clashing(a, b)) in keys; }
  }

  ghost predicate IsRange(a: View, b: View, lo: u64, hi: u64) {
    var pa, pb := Projection(a.chain, Window(a, b)), Projection(b.chain, Window(a, b));
    && pa != map[] && pb != map[]
    && lo == Max(Least(pa.Keys), Least(pb.Keys)) && hi == Min(Greatest(pa.Keys), Greatest(pb.Keys))
  }

  lemma LeastMismatch(a: View, b: View, lo: u64, hi: u64)
    requires forall m: u64 :: m in Shared(a, b) <==> lo <= m <= hi
    ensures FirstMismatch(Projection(a.chain, Window(a, b)), Projection(b.chain, Window(a, b)), lo, hi)
         == if Differing(a, b) == {} then None else Some(Least(Differing(a, b)))
  {
    var pa, pb := Projection(a.chain, Window(a, b)), Projection(b.chain, Window(a, b));
    FirstMismatchIsLeast(pa, pb, lo, hi);
    var r := FirstMismatch(pa, pb, lo, hi);
    var differing := Differing(a, b);
    assert forall s :: s in differing <==> lo <= s <= hi && !Agree(pa, pb, s);
    if r.Some? { assert r.value in differing; }
    if differing != {} { assert Least(differing) in differing; }
  }

  lemma MismatchStage(a: View, b: View, lo: u64, hi: u64)
    requires ChainValid(a.chain) && ChainValid(b.chain) && IsRange(a, b, lo, hi)
    ensures Shared(a, b) == {} <==> lo > hi
    ensures FirstMismatch(Projection(a.chain, Window(a, b)), Projection(b.chain, Window(a, b)), lo, hi)
         == if Differing(a, b) == {} then None else Some(Least(Differing(a, b)))
  {
    var shared := Shared(a, b);
    forall m: u64
      ensures m in shared <==> lo <= m <= hi
    {
      RangeIsShared(a, b, lo, hi, m);
    }
    if lo <= hi { assert lo in shared; }
    LeastMismatch(a, b, lo, hi);
  }

  lemma CommitmentStage(d: Digests, a: View, b: View)
    requires ChainValid(a.chain) && ChainValid(b.chain) && Differing(a, b) == {}
    ensures FirstEpoch(SortedKeys(Epochs(a.chain)),
                       (e: u64) => e >= Window(a, b) && CommitmentClash(d, a.chain, b.chain, e)) == None
  {
    var bad := (e: u64) => e >= Window(a, b) && CommitmentClash(d, a.chain, b.chain, e);
    FirstEpochIsLeast(SortedKeys(Epochs(a.chain)), bad);
    forall e | e in SortedKeys(Epochs(a.chain)) && e >= Window(a, b)
      ensures !CommitmentClash(d, a.chain, b.chain, e)
    {
      NoCommitmentClash(d, a, b, e);
    }
  }

  /** On valid chains the staged comparison, hole and commitment checks included, gives
      exactly the specified verdict: those two checks never decide anything. */
  lemma StagesRefineSpec(d: Digests, a: View, b: View)
    requires ChainValid(a.chain) && ChainValid(b.chain)
    ensures Stages(d, a, b) == Spec(a, b)
  {
    ClashStage(a, b);
    var pa, pb := Projection(a.chain, Window(a, b)), Projection(b.chain, Window(a, b));
    if Clashing(a, b) == {} && pa != map[] && pb != map[] {
      var lo, hi := Max(Least(pa.Keys), Least(pb.Keys)), Min(Greatest(pa.Keys), Greatest(pb.Keys));
      MismatchStage(a, b, lo, hi);
      if Differing(a, b) == {} { CommitmentStage(d, a, b); }
    }
  }
}
