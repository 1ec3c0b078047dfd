/** What comparing two views says about the logs behind them. */
module ForkGuarantees {
  import opened Bytes
  import opened Primitives
  import opened RefHeads
  import opened HeadFormats
  import opened OrderedMaps
  import opened ForkCompare
  import opened ForkTheory

  // ---- Exporting a view ----------------------------------------------------------------

  function EntryOf(hash: HashFn, h: RefHead): ChainEntry { ChainEntry(h.seqNo, hash(h), h.prev, h.epoch) }

  function Entries(hash: HashFn, heads: seq<RefHead>, windowFrom: u64): seq<ChainEntry> {
    if heads == [] then []
    else if heads[0].epoch >= windowFrom then [EntryOf(hash, heads[0])] + Entries(hash, heads[1..], windowFrom)
    else Entries(hash, heads[1..], windowFrom)
  }

  function Export(hash: HashFn, repo: Bytes32, heads: seq<RefHead>, windowFrom: u64, witnesses: map<u64, Bytes>): View {
    View(repo, Entries(hash, heads, windowFrom), windowFrom, witnesses)
  }

  function Bound(d: Digests, v: View): Checkpoint { Checkpoint(v, d.bind(v)) }

  /** A run of heads as a client holds it: contiguous, hash-linked, epochs not falling. */
  ghost predicate Linked(hash: HashFn, heads: seq<RefHead>) {
    && (forall i {:trigger PrevHash(hash, heads, i)} :: 0 < i < |heads| ==> heads[i].prev == PrevHash(hash, heads, i))
    && (forall i, j :: 0 <= i <= j < |heads| ==> heads[j].seqNo == heads[i].seqNo + (j - i))
    && (forall i, j :: 0 <= i <= j < |heads| ==> heads[i].epoch <= heads[j].epoch)
  }

  ghost predicate RisingEpochs(heads: seq<RefHead>) {
    forall i, j :: 0 <= i <= j < |heads| ==> heads[i].epoch <= heads[j].epoch
  }

  /** The exported entries are those of a suffix of the heads. */
  lemma {:induction false} EntriesAreSuffix(hash: HashFn, heads: seq<RefHead>, w: u64) returns (n: nat)
    requires RisingEpochs(heads)
    ensures n <= |heads| && |Entries(hash, heads, w)| == |heads| - n
    ensures forall i :: n <= i < |heads| ==> Entries(hash, heads, w)[i - n] == EntryOf(hash, heads[i])
    ensures forall i :: 0 <= i < |heads| ==> (heads[i].epoch >= w <==> n <= i)
  {
    if heads == [] {
      n := 0;
    } else {
      var rest := heads[1..];
      assert forall i :: 0 <= i < |rest| ==> rest[i] == heads[i + 1];
      var k := EntriesAreSuffix(hash, rest, w);
      if heads[0].epoch >= w {
        assert rest != [] ==> rest[0].epoch >= w;
        n := 0;
      } else {
        n := k + 1;
      }
      forall i | 0 <= i < |heads|
        ensures heads[i].epoch >= w <==> n <= i
        ensures n <= i ==> Entries(hash, heads, w)[i - n] == EntryOf(hash, heads[i])
      {
        if i > 0 { assert heads[i] == rest[i - 1]; }
      }
    }
  }

  /** Exports of a linked run pass every check of the comparison. */
  lemma ExportIsAccepted(hash: HashFn, repo: Bytes32, heads: seq<RefHead>, w: u64, witnesses: map<u64, Bytes>)
    requires Linked(hash, heads)
    ensures var v := Export(hash, repo, heads, w, witnesses);
            ChainValid(v.chain) && InWindow(v)
  {
    var n := EntriesAreSuffix(hash, heads, w);
    var chain := Entries(hash, heads, w);
    forall i {:trigger chain[i]} | 0 < i < |chain|
      ensures LinkValid(chain[i - 1], chain[i])
    {
      assert heads[n + i].prev == PrevHash(hash, heads, n + i);
      assert chain[i] == EntryOf(hash, heads[n + i]) && chain[i - 1] == EntryOf(hash, heads[n + i - 1]);
    }
    forall e | e in chain
      ensures e.epoch >= w
    {
      var i :| 0 <= i < |chain| && chain[i] == e;
      assert chain[i] == EntryOf(hash, heads[n + i]);
    }
  }

  /** What an export holds under a window: exactly the heads of epochs from there on. */
  lemma ExportHolds(hash: HashFn, heads: seq<RefHead>, w: u64, window: u64, s: u64)
    requires Linked(hash, heads) && w <= window
    ensures var p := Projection(Entries(hash, heads, w), window);
            && (s in p <==> exists i :: 0 <= i < |heads| && heads[i].seqNo == s && heads[i].epoch >= window)
            && (forall i :: 0 <= i < |heads| && heads[i].seqNo == s && heads[i].epoch >= window ==>
                  s in p && p[s] == EntryOf(hash, heads[i]))
  {
    var n := EntriesAreSuffix(hash, heads, w);
    var chain := Entries(hash, heads, w);
    ExportIsAccepted(hash, Zeros(32), heads, w, map[]);
    ProjectionHolds(chain, window);
    if s in Projection(chain, window) {
      var i := HeldAt(chain, window, s);
      assert chain[i] == EntryOf(hash, heads[n + i]);
    }
    forall i | 0 <= i < |heads| && heads[i].seqNo == s && heads[i].epoch >= window
      ensures s in Projection(chain, window) && Projection(chain, window)[s] == EntryOf(hash, heads[i])
    {
      assert chain[i - n] == EntryOf(hash, heads[i]);
    }
  }

  // ---- Two views of one log ----------------------------------------------------------------

  ghost predicate OneLog(hash: HashFn, log: seq<RefHead>) {
    Chained(hash, log) && RisingEpochs(log)
  }

  lemma PrefixLinked(hash: HashFn, log: seq<RefHead>, p: nat)
    requires OneLog(hash, log) && p <= |log|
    ensures Linked(hash, log[..p])
  {
    var front := log[..p];
    forall i {:trigger PrevHash(hash, front, i)} | 0 < i < p
      ensures front[i].prev == PrevHash(hash, front, i)
    {
      assert log[i].prev == PrevHash(hash, log, i);
    }
  }

  /** A prefix of the log holds number `s` exactly when it reaches it in the window. */
  lemma PrefixHolds(hash: HashFn, log: seq<RefHead>, p: nat, w: u64, window: u64, s: u64)
    requires OneLog(hash, log) && p <= |log| && w <= window
    ensures var held := Projection(Entries(hash, log[..p], w), window);
            && (s in held <==> 1 <= s <= p && log[s - 1].epoch >= window)
            && (s in held ==> held[s] == EntryOf(hash, log[s - 1]))
  {
    PrefixLinked(hash, log, p);
    ExportHolds(hash, log[..p], w, window, s);
    if 1 <= s <= p { assert log[..p][s - 1] == log[s - 1]; }
  }

  /** Honest views never fork: the verdict depends only on how far each side is and on
      whether the shorter one reaches the common window. */
  lemma HonestViewsAgree(hash: HashFn, d: Digests, repo: Bytes32, log: seq<RefHead>, p: nat, q: nat,
                         wa: u64, wb: u64, witnesses: map<u64, Bytes>, ma: map<u64, Bytes>, mb: map<u64, Bytes>)
    requires OneLog(hash, log) && p <= |log| && q <= |log|
    requires ma.Items <= witnesses.Items && mb.Items <= witnesses.Items
    ensures var a, b := Export(hash, repo, log[..p], wa, ma), Export(hash, repo, log[..q], wb, mb);
            var shorter := Min(p, q);
            && Refusal(d, Bound(d, a), Bound(d, b)).None?
            && Stages(d, a, b) ==
               if shorter == 0 || log[shorter - 1].epoch < Max(wa, wb) then WindowDisjoint
               else if p == q then Consistent
               else PrefixCompatible(if p < q then B else A)
  {
    var a, b := Export(hash, repo, log[..p], wa, ma), Export(hash, repo, log[..q], wb, mb);
    PrefixLinked(hash, log, p);
    PrefixLinked(hash, log, q);
    ExportIsAccepted(hash, repo, log[..p], wa, ma);
    ExportIsAccepted(hash, repo, log[..q], wb, mb);
    StagesRefineSpec(d, a, b);
    NoHonestClash(a, b, witnesses);
    HonestShared(hash, repo, log, p, q, wa, wb, ma, mb);
  }

  lemma NoHonestClash(a: View, b: View, witnesses: map<u64, Bytes>)
    requires a.witnesses.Items <= witnesses.Items && b.witnesses.Items <= witnesses.Items
    ensures Clashing(a, b) == {}
  {
    forall e | e in a.witnesses && e in b.witnesses
      ensures a.witnesses[e] == b.witnesses[e]
    {
      assert (e, a.witnesses[e]) in a.witnesses.Items && (e, b.witnesses[e]) in b.witnesses.Items;
    }
  }

  lemma HonestShared(hash: HashFn, repo: Bytes32, log: seq<RefHead>, p: nat, q: nat, wa: u64, wb: u64,
                     ma: map<u64, Bytes>, mb: map<u64, Bytes>)
    requires OneLog(hash, log) && p <= |log| && q <= |log|
    ensures var a, b := Export(hash, repo, log[..p], wa, ma), Export(hash, repo, log[..q], wb, mb);
            var shorter := Min(p, q);
            && Differing(a, b) == {}
            && (Shared(a, b) == {} <==> shorter == 0 || log[shorter - 1].epoch < Max(wa, wb))
            && (Shared(a, b) != {} ==> Greatest(Projection(a.chain, Window(a, b)).Keys) == p
                                       && Greatest(Projection(b.chain, Window(a, b)).Keys) == q)
  {
    var a, b := Export(hash, repo, log[..p], wa, ma), Export(hash, repo, log[..q], wb, mb);
    var w := Window(a, b);
    forall s: u64
      ensures s in Projection(a.chain, w) <==> 1 <= s <= p && log[s - 1].epoch >= w
      ensures s in Projection(b.chain, w) <==> 1 <= s <= q && log[s - 1].epoch >= w
      ensures s in Shared(a, b) ==> Projection(a.chain, w)[s] == Projection(b.chain, w)[s]
    {
      PrefixHolds(hash, log, p, wa, w, s);
      PrefixHolds(hash, log, q, wb, w, s);
    }
    var shorter := Min(p, q);
    if shorter > 0 {
      assert log[p - 1].seqNo == p && log[q - 1].seqNo == q;
      assert log[shorter - 1].epoch >= w ==> shorter in Shared(a, b);
    }
    if Shared(a, b) != {} {
      var s :| s in Shared(a, b);
      assert log[s - 1].epoch <= log[shorter - 1].epoch;
      assert p in Projection(a.chain, w) && q in Projection(b.chain, w);
    }
  }

  // ---- Forks never heal --------------------------------------------------------------------

  /** The head behind a held number. */
  lemma HeadAt(hash: HashFn, x: seq<RefHead>, v: View, window: u64, s: u64) returns (i: nat)
    requires Linked(hash, x) && v.chain == Entries(hash, x, v.windowFrom) && v.windowFrom <= window
    requires s in Projection(v.chain, window)
    ensures i < |x| && x[i].seqNo == s && Projection(v.chain, window)[s] == EntryOf(hash, x[i])
  {
    ExportHolds(hash, x, v.windowFrom, window, s);
    i :| 0 <= i < |x| && x[i].seqNo == s && x[i].epoch >= window;
  }

  /** The two heads behind a shared number, and when they differ. */
  lemma HeadsAt(hash: HashFn, x: seq<RefHead>, y: seq<RefHead>, a: View, b: View, s: u64)
    returns (g: RefHead, h: RefHead)
    requires Linked(hash, x) && Linked(hash, y) && s in Shared(a, b)
    requires a.chain == Entries(hash, x, a.windowFrom) && b.chain == Entries(hash, y, b.windowFrom)
    ensures g in x && h in y && g.seqNo == h.seqNo == s
    ensures s in Differing(a, b) <==> hash(g) != hash(h) || g.epoch != h.epoch
  {
    var i := HeadAt(hash, x, a, Window(a, b), s);
    var j := HeadAt(hash, y, b, Window(a, b), s);
    g, h := x[i], y[j];
  }

  /** Agreement at a shared number carries one number down. */
  lemma AgreementGoesDown(hash: HashFn, x: seq<RefHead>, y: seq<RefHead>, a: View, b: View, t: u64, s: u64)
    requires Linked(hash, x) && Linked(hash, y) && NoCollision(hash, SetOf(x) + SetOf(y))
    requires a.chain == Entries(hash, x, a.windowFrom) && b.chain == Entries(hash, y, b.windowFrom)
    requires t + 1 == s && s in Shared(a, b) && t in Shared(a, b) && s !in Differing(a, b)
    ensures t !in Differing(a, b)
  {
    var g, h := HeadsAt(hash, x, y, a, b, s);
    var g', h' := HeadsAt(hash, x, y, a, b, t);
    PredecessorsAgree(hash, x, y, g, h, g', h');
  }

  lemma PredecessorsAgree(hash: HashFn, x: seq<RefHead>, y: seq<RefHead>, g: RefHead, h: RefHead,
                          g': RefHead, h': RefHead)
    requires Linked(hash, x) && Linked(hash, y) && NoCollision(hash, SetOf(x) + SetOf(y))
    requires g in x && g' in x && h in y && h' in y
    requires g'.seqNo + 1 == g.seqNo == h.seqNo == h'.seqNo + 1
    requires hash(g) == hash(h)
    ensures g' == h'
  {
    var i :| 0 <= i < |x| && x[i] == g;
    var i' :| 0 <= i' < |x| && x[i'] == g';
    var j :| 0 <= j < |y| && y[j] == h;
    var j' :| 0 <= j' < |y| && y[j'] == h';
    SamePredecessor(hash, x, y, i, j, i', j');
  }

  lemma SamePredecessor(hash: HashFn, x: seq<RefHead>, y: seq<RefHead>, i: nat, j: nat, i': nat, j': nat)
    requires Linked(hash, x) && Linked(hash, y) && NoCollision(hash, SetOf(x) + SetOf(y))
    requires i < |x| && j < |y| && i' < |x| && j' < |y|
    requires x[i'].seqNo + 1 == x[i].seqNo == y[j].seqNo == y[j'].seqNo + 1
    requires hash(x[i]) == hash(y[j])
    ensures x[i'] == y[j']
  {
    SameHeads(hash, x, y, x[i], y[j]);
    Adjacent(hash, x, i', i);
    Adjacent(hash, y, j', j);
    SameHeads(hash, x, y, x[i'], y[j']);
  }

  lemma SameHeads(hash: HashFn, x: seq<RefHead>, y: seq<RefHead>, g: RefHead, h: RefHead)
    requires NoCollision(hash, SetOf(x) + SetOf(y)) && g in x && h in y && hash(g) == hash(h)
    ensures g == h
  {
    assert g in SetOf(x) + SetOf(y) && h in SetOf(x) + SetOf(y);
  }

  lemma Adjacent(hash: HashFn, x: seq<RefHead>, i: nat, j: nat)
    requires Linked(hash, x) && i < |x| && j < |x| && x[i].seqNo + 1 == x[j].seqNo
    ensures j == i + 1 && x[j].prev == hash(x[i])
  {
    Spacing(hash, x, i, j);
    assert x[j].prev == PrevHash(hash, x, j);
  }

  lemma Spacing(hash: HashFn, x: seq<RefHead>, i: nat, j: nat)
    requires Linked(hash, x) && i < |x| && j < |x|
    ensures x[j].seqNo - x[i].seqNo == j - i
  {
  }

  /** Nothing is missing between two shared numbers. */
  lemma SharedBetween(hash: HashFn, x: seq<RefHead>, y: seq<RefHead>, a: View, b: View, t: u64, m: u64, s: u64)
    requires Linked(hash, x) && Linked(hash, y) && t <= m <= s && t in Shared(a, b) && s in Shared(a, b)
    requires a.chain == Entries(hash, x, a.windowFrom) && b.chain == Entries(hash, y, b.windowFrom)
    ensures m in Shared(a, b)
  {
    ExportIsAccepted(hash, a.repoId, x, a.windowFrom, a.witnesses);
    ExportIsAccepted(hash, b.repoId, y, b.windowFrom, b.witnesses);
    ProjectionConvex(a.chain, Window(a, b), t, m, s);
    ProjectionConvex(b.chain, Window(a, b), t, m, s);
  }

  lemma {:induction false} AgreementIsDownwardClosed(hash: HashFn, x: seq<RefHead>, y: seq<RefHead>, a: View, b: View,
                                                     t: u64, s: u64)
    requires Linked(hash, x) && Linked(hash, y) && NoCollision(hash, SetOf(x) + SetOf(y))
    requires a.chain == Entries(hash, x, a.windowFrom) && b.chain == Entries(hash, y, b.windowFrom)
    requires t in Shared(a, b) && s in Shared(a, b) && t <= s && s !in Differing(a, b)
    ensures t !in Differing(a, b)
    decreases s - t
  {
    if t < s {
      SharedBetween(hash, x, y, a, b, t, s - 1, s);
      AgreementGoesDown(hash, x, y, a, b, s - 1, s);
      AgreementIsDownwardClosed(hash, x, y, a, b, t, s - 1);
    }
  }

  lemma DivergenceIsLeast(d: Digests, a: View, b: View, s: u64)
    requires ChainValid(a.chain) && ChainValid(b.chain) && Stages(d, a, b) == Forked(Some(s), DivergentHead)
    ensures IsLeast(Differing(a, b), s)
  {
    StagesRefineSpec(d, a, b);
  }

  /** The number reported with a divergent head is the split point: below it everything
      shared agrees, from it on everything shared differs. */
  lemma ForksNeverHeal(hash: HashFn, x: seq<RefHead>, y: seq<RefHead>, d: Digests, a: View, b: View, s: u64)
    requires Linked(hash, x) && Linked(hash, y) && NoCollision(hash, SetOf(x) + SetOf(y))
    requires a.chain == Entries(hash, x, a.windowFrom) && b.chain == Entries(hash, y, b.windowFrom)
    requires Stages(d, a, b) == Forked(Some(s), DivergentHead)
    ensures s in Shared(a, b)
    ensures forall t :: t in Shared(a, b) ==> (t in Differing(a, b) <==> s <= t)
  {
    ExportIsAccepted(hash, a.repoId, x, a.windowFrom, a.witnesses);
    ExportIsAccepted(hash, b.repoId, y, b.windowFrom, b.witnesses);
    DivergenceIsLeast(d, a, b, s);
    forall t | t in Shared(a, b) && s <= t
      ensures t in Differing(a, b)
    {
      if t !in Differing(a, b) { AgreementIsDownwardClosed(hash, x, y, a, b, s, t); }
    }
  }

  /** So agreement at the highest shared number settles the whole comparison. */
  lemma TipAgreementSuffices(hash: HashFn, x: seq<RefHead>, y: seq<RefHead>, a: View, b: View)
    requires Linked(hash, x) && Linked(hash, y) && NoCollision(hash, SetOf(x) + SetOf(y))
    requires a.chain == Entries(hash, x, a.windowFrom) && b.chain == Entries(hash, y, b.windowFrom)
    requires Shared(a, b) != {} && Greatest(Shared(a, b)) !in Differing(a, b)
    ensures Differing(a, b) == {}
  {
    if Differing(a, b) != {} {
      var t := Least(Differing(a, b));
      AgreementIsDownwardClosed(hash, x, y, a, b, t, Greatest(Shared(a, b)));
    }
  }

  // ---- Symmetry ---------------------------------------------------------------------------------

  /** The verdict seen from the other side. */
  predicate Mirrors(v: Verdict, w: Verdict) {
    match v
    case PrefixCompatible(ahead) => w == PrefixCompatible(if ahead == A then B else A)
    case Forked(_, EpochWitness(epoch)) => w.Forked? && w.reason == EpochWitness(epoch)
    case _ => w == v
  }

  lemma SetsAreSymmetric(a: View, b: View)
    ensures Clashing(a, b) == Clashing(b, a) && Shared(a, b) == Shared(b, a) && Differing(a, b) == Differing(b, a)
  {
  }

  lemma SpecIsSymmetric(a: View, b: View)
    ensures Mirrors(Spec(a, b), Spec(b, a))
  {
    SetsAreSymmetric(a, b);
    assert Window(a, b) == Window(b, a);
    if Clashing(a, b) == {} && Shared(a, b) != {} && Differing(a, b) == {} {
      var tipA := Greatest(Projection(a.chain, Window(a, b)).Keys);
      var tipB := Greatest(Projection(b.chain, Window(a, b)).Keys);
      assert Spec(b, a) == if tipA == tipB then Consistent else PrefixCompatible(if tipB < tipA then B else A);
    }
  }

  /** Swapping the arguments swaps the sides and changes nothing else, except where a
      witness clash is located. */
  lemma CompareIsSymmetric(d: Digests, a: View, b: View)
    requires ChainValid(a.chain) && ChainValid(b.chain)
    ensures Mirrors(Stages(d, a, b), Stages(d, b, a))
  {
    StagesRefineSpec(d, a, b);
    StagesRefineSpec(d, b, a);
    SpecIsSymmetric(a, b);
  }
}
