/** What each answer of the comparison says about the entries and witnesses of the two views. */
module ForkVerdicts {
  import opened Bytes
  import opened Primitives
  import opened OrderedMaps
  import opened ForkCompare
  import opened ForkTheory

  // ---- Refusals --------------------------------------------------------------------------------

  /** Adjacent entries: numbers go up by one, each names the hash before it, epochs never fall. */
  ghost predicate Unbroken(chain: seq<ChainEntry>) {
    forall i, j :: 0 <= i < j < |chain| && j == i + 1 ==>
      && chain[j].seqNo == chain[i].seqNo + 1
      && chain[j].prev == chain[i].hash
      && chain[i].epoch <= chain[j].epoch
  }

  lemma ValidIsUnbroken(chain: seq<ChainEntry>)
    ensures ChainValid(chain) <==> Unbroken(chain)
  {
    if ChainValid(chain) {
      forall i, j | 0 <= i < j < |chain| && j == i + 1
        ensures LinkValid(chain[i], chain[j])
      {
        assert LinkValid(chain[j - 1], chain[j]);
      }
    } else {
      var j :| 0 < j < |chain| && !LinkValid(chain[j - 1], chain[j]);
      var i := j - 1;
      assert chain[i] == chain[j - 1];
    }
  }

  /** Two checkpoints are compared if and only if they are of one repository, each binding is
      that of its own view, both chains are unbroken, and no entry lies below its view's window. */
  lemma ComparedIff(d: Digests, a: Checkpoint, b: Checkpoint)
    ensures Refusal(d, a, b).None? <==>
              && a.view.repoId == b.view.repoId
              && d.bind(a.view) == a.tipBinding && d.bind(b.view) == b.tipBinding
              && Unbroken(a.view.chain) && Unbroken(b.view.chain)
              && (forall e :: e in a.view.chain ==> a.view.windowFrom <= e.epoch)
              && (forall e :: e in b.view.chain ==> b.view.windowFrom <= e.epoch)
    ensures Refusal(d, a, b) == Some(RepoMismatch) <==> a.view.repoId != b.view.repoId
    ensures Refusal(d, a, b) == Some(Tampered) <==>
              && a.view.repoId == b.view.repoId
              && (d.bind(a.view) != a.tipBinding || d.bind(b.view) != b.tipBinding)
  {
    ValidIsUnbroken(a.view.chain);
    ValidIsUnbroken(b.view.chain);
  }

  // ---- Epoch-witness forks -----------------------------------------------------------------------

  /** The number of the first entry of epoch `e`, if there is one. */
  ghost predicate IsFirstNumber(chain: seq<ChainEntry>, e: u64, n: Option<u64>) {
    && (n.None? ==> forall x :: x in chain ==> x.epoch != e)
    && (n.Some? ==> exists i :: 0 <= i < |chain| && chain[i].epoch == e && chain[i].seqNo == n.value
                                && forall j :: 0 <= j < i ==> chain[j].epoch != e)
  }

  lemma {:induction false} FirstAtIsFirst(chain: seq<ChainEntry>, e: u64)
    ensures IsFirstNumber(chain, e, FirstAt(chain, e))
  {
    if chain != [] && chain[0].epoch != e {
      var rest, n := chain[1..], FirstAt(chain[1..], e);
      FirstAtIsFirst(rest, e);
      if n.Some? {
        var i :| 0 <= i < |rest| && rest[i].epoch == e && rest[i].seqNo == n.value
                 && forall j :: 0 <= j < i ==> rest[j].epoch != e;
        FirstShifts(chain, e, i);
      }
    }
  }

  lemma FirstShifts(chain: seq<ChainEntry>, e: u64, i: nat)
    requires chain != [] && chain[0].epoch != e && i < |chain| - 1 && chain[i + 1].epoch == e
    requires forall j :: 0 <= j < i ==> chain[1..][j].epoch != e
    ensures IsFirstNumber(chain, e, Some(chain[i + 1].seqNo))
  {
    forall j | 0 <= j < i + 1
      ensures chain[j].epoch != e
    {
      if j > 0 { assert chain[j] == chain[1..][j - 1]; }
    }
  }

  lemma FirstIsUnique(chain: seq<ChainEntry>, e: u64, m: Option<u64>, n: Option<u64>)
    requires IsFirstNumber(chain, e, m) && IsFirstNumber(chain, e, n)
    ensures m == n
  {
    if m.Some? && n.Some? {
      var i :| 0 <= i < |chain| && chain[i].epoch == e && chain[i].seqNo == m.value
               && forall j :: 0 <= j < i ==> chain[j].epoch != e;
      var k :| 0 <= k < |chain| && chain[k].epoch == e && chain[k].seqNo == n.value
               && forall j :: 0 <= j < k ==> chain[j].epoch != e;
      assert i == k;
    }
  }

  /** Both views witnessed epoch `e`, and saw different bytes. */
  ghost predicate SawDifferent(a: View, b: View, e: u64) {
    exists x, y :: (e, x) in a.witnesses.Items && (e, y) in b.witnesses.Items && x != y
  }

  lemma ClashIsSawDifferent(a: View, b: View, e: u64)
    ensures e in a.witnesses && WitnessClash(a, b, e) <==> SawDifferent(a, b, e)
  {
    if e in a.witnesses && e in b.witnesses {
      assert (e, a.witnesses[e]) in a.witnesses.Items && (e, b.witnesses[e]) in b.witnesses.Items;
    }
  }

  lemma LeastClashIff(a: View, b: View, e: u64)
    ensures Clashing(a, b) != {} && Least(Clashing(a, b)) == e <==>
            SawDifferent(a, b, e) && forall f: u64 :: f < e ==> !SawDifferent(a, b, f)
  {
    forall f: u64
      ensures f in Clashing(a, b) <==> SawDifferent(a, b, f)
    {
      ClashIsSawDifferent(a, b, f);
    }
  }

  lemma WitnessStage(d: Digests, a: View, b: View)
    ensures Clashing(a, b) != {} ==>
              var e := Least(Clashing(a, b)); Stages(d, a, b) == Forked(FirstAt(a.chain, e), EpochWitness(e))
    ensures Clashing(a, b) == {} ==> forall n, e :: Stages(d, a, b) != Forked(n, EpochWitness(e))
  {
    ClashStage(a, b);
  }

  /** A fork by epoch witness is reported at `e` if and only if `e` is the least epoch that both
      views witnessed with different bytes. Its number is that of the first entry of the epoch in
      the first view, if it holds one. */
  lemma WitnessForkIff(d: Digests, a: View, b: View, n: Option<u64>, e: u64)
    ensures Stages(d, a, b) == Forked(n, EpochWitness(e)) <==>
              && SawDifferent(a, b, e) && (forall f: u64 :: f < e ==> !SawDifferent(a, b, f))
              && IsFirstNumber(a.chain, e, n)
  {
    WitnessStage(d, a, b);
    LeastClashIff(a, b, e);
    FirstAtIsFirst(a.chain, e);
    if IsFirstNumber(a.chain, e, n) { FirstIsUnique(a.chain, e, n, FirstAt(a.chain, e)); }
  }

  // ---- The other verdicts --------------------------------------------------------------------------

  /** An entry of `chain` in an epoch that both views may speak for. */
  ghost predicate Visible(a: View, b: View, chain: seq<ChainEntry>, x: ChainEntry) {
    x in chain && x.epoch >= a.windowFrom && x.epoch >= b.windowFrom
  }

  /** Entries that the two views hold under one number, both visible. */
  ghost predicate SameNumber(a: View, b: View, x: ChainEntry, y: ChainEntry) {
    Visible(a, b, a.chain, x) && Visible(a, b, b.chain, y) && x.seqNo == y.seqNo
  }

  ghost predicate SameHead(x: ChainEntry, y: ChainEntry) { x.hash == y.hash && x.epoch == y.epoch }

  /** No epoch was witnessed differently. */
  ghost predicate WitnessesAgree(a: View, b: View) { forall e: u64 :: !SawDifferent(a, b, e) }

  ghost predicate Overlap(a: View, b: View) { exists x, y :: SameNumber(a, b, x, y) }

  /** Every head that both hold and may speak for is the same on both sides. */
  ghost predicate Agreed(a: View, b: View) { forall x, y :: SameNumber(a, b, x, y) ==> SameHead(x, y) }

  /** The second chain has a visible entry numbered above every visible entry of the first. */
  ghost predicate Reaches(a: View, b: View, lower: seq<ChainEntry>, higher: seq<ChainEntry>) {
    exists y :: Visible(a, b, higher, y) && forall x :: Visible(a, b, lower, x) ==> x.seqNo < y.seqNo
  }

  lemma VisibleIsHeld(a: View, b: View, chain: seq<ChainEntry>, x: ChainEntry)
    requires ChainValid(chain)
    ensures Visible(a, b, chain, x) <==>
            x.seqNo in Projection(chain, Window(a, b)) && Projection(chain, Window(a, b))[x.seqNo] == x
  {
    if Visible(a, b, chain, x) {
      var i :| 0 <= i < |chain| && chain[i] == x;
      ProjectionHas(chain, Window(a, b), i);
    } else if x.seqNo in Projection(chain, Window(a, b)) {
      var i := HeldAt(chain, Window(a, b), x.seqNo);
      assert chain[i] in chain;
    }
  }

  /** The visible entry that is held under `s`. */
  lemma HeldIsVisible(a: View, b: View, chain: seq<ChainEntry>, s: u64)
    requires ChainValid(chain) && s in Projection(chain, Window(a, b))
    ensures var x := Projection(chain, Window(a, b))[s]; x.seqNo == s && Visible(a, b, chain, x)
  {
    var i := HeldAt(chain, Window(a, b), s);
    VisibleIsHeld(a, b, chain, chain[i]);
  }

  lemma SharedIsSameNumber(a: View, b: View, s: u64)
    requires ChainValid(a.chain) && ChainValid(b.chain)
    ensures s in Shared(a, b) <==> exists x, y :: SameNumber(a, b, x, y) && x.seqNo == s
    ensures s in Differing(a, b) <==> exists x, y :: SameNumber(a, b, x, y) && x.seqNo == s && !SameHead(x, y)
  {
    if s in Shared(a, b) {
      HeldIsVisible(a, b, a.chain, s);
      HeldIsVisible(a, b, b.chain, s);
      var x, y := Projection(a.chain, Window(a, b))[s], Projection(b.chain, Window(a, b))[s];
      assert SameNumber(a, b, x, y);
    }
    forall x, y | SameNumber(a, b, x, y) && x.seqNo == s
      ensures s in Shared(a, b) && (!SameHead(x, y) ==> s in Differing(a, b))
    {
      VisibleIsHeld(a, b, a.chain, x);
      VisibleIsHeld(a, b, b.chain, y);
    }
  }

  lemma OverlapIsShared(a: View, b: View)
    requires ChainValid(a.chain) && ChainValid(b.chain)
    ensures Shared(a, b) != {} <==> Overlap(a, b)
    ensures Differing(a, b) == {} <==> Agreed(a, b)
  {
    if Shared(a, b) != {} {
      var s :| s in Shared(a, b);
      SharedIsSameNumber(a, b, s);
    }
    if Differing(a, b) != {} {
      var s :| s in Differing(a, b);
      SharedIsSameNumber(a, b, s);
    }
    forall x, y | SameNumber(a, b, x, y)
      ensures Shared(a, b) != {} && (!SameHead(x, y) ==> Differing(a, b) != {})
    {
      SharedIsSameNumber(a, b, x.seqNo);
    }
  }

  lemma ReachesIsHigher(a: View, b: View, lower: seq<ChainEntry>, higher: seq<ChainEntry>)
    requires ChainValid(lower) && ChainValid(higher)
    requires Projection(lower, Window(a, b)) != map[] && Projection(higher, Window(a, b)) != map[]
    ensures Reaches(a, b, lower, higher) <==>
            Greatest(Projection(lower, Window(a, b)).Keys) < Greatest(Projection(higher, Window(a, b)).Keys)
  {
    var p, q := Projection(lower, Window(a, b)), Projection(higher, Window(a, b));
    var s, t := Greatest(p.Keys), Greatest(q.Keys);
    HeldIsVisible(a, b, lower, s);
    HeldIsVisible(a, b, higher, t);
    forall x | Visible(a, b, lower, x)
      ensures x.seqNo <= s
    {
      VisibleIsHeld(a, b, lower, x);
    }
    forall y | Visible(a, b, higher, y)
      ensures y.seqNo <= t
    {
      VisibleIsHeld(a, b, higher, y);
    }
  }

  lemma LeastDifferingIff(a: View, b: View, s: u64)
    requires ChainValid(a.chain) && ChainValid(b.chain)
    ensures Differing(a, b) != {} && Least(Differing(a, b)) == s <==>
              && (exists x, y :: SameNumber(a, b, x, y) && x.seqNo == s && !SameHead(x, y))
              && (forall x, y :: SameNumber(a, b, x, y) && x.seqNo < s ==> SameHead(x, y))
  {
    SharedIsSameNumber(a, b, s);
    forall x, y | SameNumber(a, b, x, y) && !SameHead(x, y)
      ensures x.seqNo in Differing(a, b)
    {
      SharedIsSameNumber(a, b, x.seqNo);
    }
    if Differing(a, b) != {} { SharedIsSameNumber(a, b, Least(Differing(a, b))); }
  }

  lemma HeadStage(d: Digests, a: View, b: View, s: u64)
    requires ChainValid(a.chain) && ChainValid(b.chain)
    ensures Stages(d, a, b) == Forked(Some(s), DivergentHead) <==>
              Clashing(a, b) == {} && Differing(a, b) != {} && Least(Differing(a, b)) == s
  {
    StagesRefineSpec(d, a, b);
    if Differing(a, b) != {} { assert Least(Differing(a, b)) in Shared(a, b); }
  }

  /** The heads fork at `s` if and only if no witness forks, the two views hold different heads
      under `s`, and agree wherever both hold a head under a smaller number. */
  lemma HeadForkIff(d: Digests, a: View, b: View, s: u64)
    requires ChainValid(a.chain) && ChainValid(b.chain)
    ensures Stages(d, a, b) == Forked(Some(s), DivergentHead) <==>
              && WitnessesAgree(a, b)
              && (exists x, y :: SameNumber(a, b, x, y) && x.seqNo == s && !SameHead(x, y))
              && (forall x, y :: SameNumber(a, b, x, y) && x.seqNo < s ==> SameHead(x, y))
  {
    HeadStage(d, a, b, s);
    AgreeingIffNoClash(a, b);
    LeastDifferingIff(a, b, s);
  }

  lemma AgreeingIffNoClash(a: View, b: View)
    ensures Clashing(a, b) == {} <==> WitnessesAgree(a, b)
  {
    forall f: u64
      ensures f in Clashing(a, b) <==> SawDifferent(a, b, f)
    {
      ClashIsSawDifferent(a, b, f);
    }
    if Clashing(a, b) != {} {
      var f :| f in Clashing(a, b);
      assert SawDifferent(a, b, f);
    }
  }

  /** The views cannot be compared if and only if no witness forks and no number is visible on
      both sides. */
  lemma DisjointIff(d: Digests, a: View, b: View)
    requires ChainValid(a.chain) && ChainValid(b.chain)
    ensures Stages(d, a, b) == WindowDisjoint <==> WitnessesAgree(a, b) && !Overlap(a, b)
    ensures Stages(d, a, b).Forked? ==> !Stages(d, a, b).reason.EpochCommitment?
  {
    StagesRefineSpec(d, a, b);
    AgreeingIffNoClash(a, b);
    OverlapIsShared(a, b);
  }

  predicate Quiet(a: View, b: View) { Clashing(a, b) == {} && Shared(a, b) != {} && Differing(a, b) == {} }

  /** Something is visible on both sides, and all of that agrees. */
  ghost predicate InAgreement(a: View, b: View) { WitnessesAgree(a, b) && Overlap(a, b) && Agreed(a, b) }

  lemma QuietIsInAgreement(a: View, b: View)
    requires ChainValid(a.chain) && ChainValid(b.chain)
    ensures Quiet(a, b) <==> InAgreement(a, b)
  {
    AgreeingIffNoClash(a, b);
    OverlapIsShared(a, b);
  }

  lemma QuietVerdict(d: Digests, a: View, b: View)
    requires ChainValid(a.chain) && ChainValid(b.chain)
    ensures Quiet(a, b) <==> Stages(d, a, b).Consistent? || Stages(d, a, b).PrefixCompatible?
    ensures Quiet(a, b) ==>
              var p, q := Projection(a.chain, Window(a, b)), Projection(b.chain, Window(a, b));
              && p != map[] && q != map[]
              && Stages(d, a, b) == if Greatest(p.Keys) < Greatest(q.Keys) then PrefixCompatible(B)
                                    else if Greatest(q.Keys) < Greatest(p.Keys) then PrefixCompatible(A)
                                    else Consistent
  {
    StagesRefineSpec(d, a, b);
  }

  /** The views agree and the second is ahead, agree and the first is ahead, or agree and end at
      one number: exactly then the comparison says so. */
  lemma AgreementIff(d: Digests, a: View, b: View)
    requires ChainValid(a.chain) && ChainValid(b.chain)
    ensures Stages(d, a, b) == PrefixCompatible(B) <==> InAgreement(a, b) && Reaches(a, b, a.chain, b.chain)
    ensures Stages(d, a, b) == PrefixCompatible(A) <==> InAgreement(a, b) && Reaches(a, b, b.chain, a.chain)
    ensures Stages(d, a, b) == Consistent <==>
              InAgreement(a, b) && !Reaches(a, b, a.chain, b.chain) && !Reaches(a, b, b.chain, a.chain)
  {
    QuietVerdict(d, a, b);
    QuietIsInAgreement(a, b);
    if Quiet(a, b) {
      ReachesIsHigher(a, b, a.chain, b.chain);
      ReachesIsHigher(a, b, b.chain, a.chain);
    }
  }
}
