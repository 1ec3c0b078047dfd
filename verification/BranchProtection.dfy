/** What the fast-forward policy guarantees over whole runs, and how far a partial object
    graph can be trusted. */
module BranchProtection {
  import opened Bytes
  import opened Primitives
  import opened RefHeads
  import opened Reconcile
  import opened FastForward
  import Quorum

  // ---- Ancestry -----------------------------------------------------------------------------------

  lemma ReachesTransitive(dag: Dag, a: Oid, b: Oid, c: Oid)
    requires Reaches(dag, a, b) && Reaches(dag, b, c)
    ensures Reaches(dag, a, c)
  {
    var p :| Joins(dag, p, a, b);
    var q :| Joins(dag, q, b, c);
    var r := p + q[1..];
    forall i | 0 <= i < |r| - 1
      ensures IsParent(dag, r[i], r[i + 1])
    {
      if i < |p| - 1 {
        assert IsParent(dag, p[i], p[i + 1]);
      } else {
        assert r[i] == q[i - |p| + 1] && r[i + 1] == q[i - |p| + 2];
        assert IsParent(dag, q[i - |p| + 1], q[i - |p| + 2]);
      }
    }
    assert Joins(dag, r, a, c);
  }

  /** Objects and parent links of a larger graph. */
  ghost predicate SubDag(local: Dag, full: Dag) {
    local.Keys <= full.Keys && forall x :: x in local ==> local[x] <= full[x]
  }

  lemma ReachesInFull(local: Dag, full: Dag, a: Oid, b: Oid)
    requires SubDag(local, full) && Reaches(local, a, b)
    ensures Reaches(full, a, b)
  {
    var p :| Joins(local, p, a, b);
    forall i | 0 <= i < |p| - 1
      ensures IsParent(full, p[i], p[i + 1])
    {
      assert IsParent(local, p[i], p[i + 1]);
    }
    assert Joins(full, p, a, b);
  }

  lemma ReachesOnlyObjects(dag: Dag, a: Oid, b: Oid)
    requires Reaches(dag, a, b)
    ensures a in dag && b in dag
  {
    var p :| Joins(dag, p, a, b);
  }

  // ---- A fast-forward in a part of the graph is one in the whole -----------------------------------

  /** How a ref may have moved: not at all, or, for a branch that was set, forward. */
  ghost predicate Advances(full: Dag, name: string, before: Oid, after: Oid) {
    before == after || (!IsTag(name) && (IsNull(before) || (!IsNull(after) && Reaches(full, after, before))))
  }

  /** What a verifier may use: nothing, or a repository holding a part of the full graph. */
  ghost predicate TrueView(git: Option<Git>, local: Dag, full: Dag) {
    SubDag(local, full) && (git.Some? ==> Answers(git.value, local))
  }

  lemma FineAdvances(git: Option<Git>, local: Dag, full: Dag, name: string, before: Oid, after: Oid)
    requires TrueView(git, local, full) && ChangeOf(git, name, before, after) == Fine
    ensures Advances(full, name, before, after)
  {
    if before != after && !IsNull(before) {
      ReachesOnlyObjects(local, after, before);
      ReachesInFull(local, full, after, before);
    }
  }

  /** A transition classified as a fast-forward from any part of the graph keeps every ref,
      leaves tags alone and moves set branches only forward in the full graph. */
  lemma FastForwardIsSound(git: Option<Git>, local: Dag, full: Dag, before: Refs, after: Refs, name: string)
    requires TrueView(git, local, full) && Classified(git, before, after) == FastForward && name in before
    ensures name in after && Advances(full, name, before[name], after[name])
  {
    assert name in after;
    var c := ChangeOf(git, name, before[name], after[name]);
    assert Says(git, before, after, name, c);
    FineAdvances(git, local, full, name, before[name], after[name]);
  }

  // ---- The verdict, ref by ref -----------------------------------------------------------------------

  /** An empty name, or one of zeros only. */
  ghost predicate AllZeros(oid: Oid) { forall i :: 0 <= i < |oid| ==> oid[i] == '0' }

  /** What a verifier has of two recorded names: both, where a null name needs no object. */
  ghost predicate HoldsBoth(git: Option<Git>, x: Oid, y: Oid) {
    && git.Some? && (AllZeros(x) || x in git.value.objects) && (AllZeros(y) || y in git.value.objects)
  }

  /** A tag that changed, or a branch whose old commit is held and no ancestor of the new one. */
  ghost predicate Rewrites(git: Option<Git>, name: string, x: Oid, y: Oid) {
    && x != y
    && (if |name| >= 10 && name[..10] == "refs/tags/" then true
        else HoldsBoth(git, x, y) && !AllZeros(x) && !git.value.isAncestor(x, y))
  }

  /** A changed branch of which some commit is missing. */
  ghost predicate CannotTell(git: Option<Git>, name: string, x: Oid, y: Oid) {
    x != y && !(|name| >= 10 && name[..10] == "refs/tags/") && !HoldsBoth(git, x, y)
  }

  lemma ZerosAreNull(oid: Oid)
    ensures AllZeros(oid) <==> IsNull(oid)
  {
    if AllZeros(oid) {
      forall c | c in oid
        ensures c == '0'
      {
        var i :| 0 <= i < |oid| && oid[i] == c;
      }
    } else {
      var i :| 0 <= i < |oid| && oid[i] != '0';
      assert oid[i] in oid;
    }
  }

  lemma ChangeIs(git: Option<Git>, name: string, x: Oid, y: Oid)
    ensures ChangeOf(git, name, x, y) == Bad <==> Rewrites(git, name, x, y)
    ensures ChangeOf(git, name, x, y) == Unknown <==> CannotTell(git, name, x, y)
  {
    ZerosAreNull(x);
    ZerosAreNull(y);
    TagPrefix(name);
  }

  lemma TagPrefix(name: string)
    ensures IsTag(name) <==> |name| >= 10 && name[..10] == "refs/tags/"
  {
    assert |"refs/tags/"| == 10;
  }

  /** An update is no fast-forward if and only if it drops a ref or rewrites one, cannot be
      verified if and only if it does neither and some branch cannot be told, and is a
      fast-forward otherwise. */
  lemma ClassifiedIff(git: Option<Git>, before: Refs, after: Refs)
    ensures var rewrites := exists n :: n in before && n in after && Rewrites(git, n, before[n], after[n]);
            var unclear := exists n :: n in before && n in after && CannotTell(git, n, before[n], after[n]);
            Classified(git, before, after)
            == if (exists n :: n in before && n !in after) || rewrites then NonFastForward
               else if unclear then Unverifiable else FastForward
  {
    forall n | n in before && n in after
      ensures Says(git, before, after, n, Bad) <==> Rewrites(git, n, before[n], after[n])
      ensures Says(git, before, after, n, Unknown) <==> CannotTell(git, n, before[n], after[n])
    {
      ChangeIs(git, n, before[n], after[n]);
    }
  }

  /** Anything but a fast-forward passes if and only if the head carries a co-signature that the
      listed key verifies over the statement of this push, and, when the update is known to be no
      fast-forward, is labelled so. */
  lemma PassesIff(sha: Bytes -> Digest, verify: Quorum.VerifyFn, h: RefHead, claimed: bool, status: FfStatus,
                  vk: Option<Bytes>, refsDigest: Digest, roster: seq<Bytes>)
    ensures var said := Quorum.Cosigned(h.repoId, h.epoch, Ascii("push"), h.seqNo, h.prev, refsDigest,
                                        sha(Quorum.RosterInput(roster)), 1);
            Passes(sha, verify, h, claimed, status, vk, refsDigest, roster) <==>
              || status == FastForward
              || (&& (status == NonFastForward ==> claimed) && h.adminCosig.Some? && vk.Some?
                  && verify(vk.value, Quorum.CosigMessage(said), h.adminCosig.value))
  {
  }

  // ---- Whole runs ------------------------------------------------------------------------------------

  /** One verified transition: who verified it, with what view, and the head that made it. */
  datatype Transition = Transition(git: Option<Git>, local: Dag, head: RefHead, claimed: bool, vk: Option<Bytes>,
                                   refsDigest: Digest, roster: seq<Bytes>)

  /** Ref maps, one per head, with each step verified by someone and none co-signed. */
  ghost predicate ProtectedRun(sha: Bytes -> Digest, verify: Quorum.VerifyFn, full: Dag, refs: seq<Refs>,
                               steps: seq<Transition>)
  {
    && |refs| == |steps| + 1
    && forall i :: 0 <= i < |steps| ==> ProtectedStep(sha, verify, full, refs[i], refs[i + 1], steps[i])
  }

  ghost predicate ProtectedStep(sha: Bytes -> Digest, verify: Quorum.VerifyFn, full: Dag, before: Refs, after: Refs,
                                t: Transition)
  {
    && TrueView(t.git, t.local, full) && t.head.adminCosig.None?
    && Passes(sha, verify, t.head, t.claimed, Classified(t.git, before, after), t.vk, t.refsDigest, t.roster)
  }

  lemma AdvancesTransitive(full: Dag, name: string, a: Oid, b: Oid, c: Oid)
    requires Advances(full, name, a, b) && Advances(full, name, b, c)
    ensures Advances(full, name, a, c)
  {
    if a != b && b != c && !IsNull(a) { ReachesTransitive(full, c, b, a); }
  }

  /** Branch protection. Along any run without admin co-signatures, no ref is ever deleted,
      no tag ever moves, and each set branch only moves to descendants, in the full graph,
      whatever part of it each verifier saw. */
  lemma {:induction false} RefsOnlyAdvance(sha: Bytes -> Digest, verify: Quorum.VerifyFn, full: Dag, refs: seq<Refs>,
                                           steps: seq<Transition>, i: nat, j: nat, name: string)
    requires ProtectedRun(sha, verify, full, refs, steps) && i <= j < |refs| && name in refs[i]
    ensures name in refs[j] && Advances(full, name, refs[i][name], refs[j][name])
    decreases j - i
  {
    if i < j {
      RefsOnlyAdvance(sha, verify, full, refs, steps, i, j - 1, name);
      var t := steps[j - 1];
      assert ProtectedStep(sha, verify, full, refs[j - 1], refs[j], t);
      FastForwardIsSound(t.git, t.local, full, refs[j - 1], refs[j], name);
      AdvancesTransitive(full, name, refs[i][name], refs[j - 1][name], refs[j][name]);
    }
  }

  /** The exception: a branch recorded with a null name may go anywhere that exists. */
  lemma NullBranchIsUnprotected(git: Git, name: string, before: Oid, after: Oid)
    requires IsNull(before) && !IsTag(name) && after in git.objects
    ensures Classified(Some(git), map[name := before], map[name := after]) == FastForward
  {
  }

  // ---- Partial graphs ----------------------------------------------------------------------------------

  /** Everything between two held commits is held, and only links to missing parents are cut. */
  ghost predicate IntervalClosed(local: Dag, full: Dag) {
    && local.Keys <= full.Keys
    && (forall x :: x in local ==> local[x] == full[x] * local.Keys)
    && (forall a, m, b :: a in local && b in local && Reaches(full, b, m) && Reaches(full, m, a) ==> m in local)
  }

  lemma PathSplits(dag: Dag, path: seq<Oid>, i: nat)
    requires IsPath(dag, path) && i < |path|
    ensures Reaches(dag, path[0], path[i]) && Reaches(dag, path[i], path[|path| - 1])
  {
    var front, back := path[..i + 1], path[i..];
    forall k | 0 <= k < |front| - 1
      ensures IsParent(dag, front[k], front[k + 1])
    {
      assert IsParent(dag, path[k], path[k + 1]);
    }
    forall k | 0 <= k < |back| - 1
      ensures IsParent(dag, back[k], back[k + 1])
    {
      assert IsParent(dag, path[i + k], path[i + k + 1]);
    }
    assert Joins(dag, front, path[0], path[i]);
    assert Joins(dag, back, path[i], path[|path| - 1]);
  }

  lemma ReachesInLocal(local: Dag, full: Dag, b: Oid, a: Oid)
    requires IntervalClosed(local, full) && a in local && b in local && Reaches(full, b, a)
    ensures Reaches(local, b, a)
  {
    var p :| Joins(full, p, b, a);
    forall i | 0 <= i < |p|
      ensures p[i] in local
    {
      PathSplits(full, p, i);
    }
    forall i | 0 <= i < |p| - 1
      ensures IsParent(local, p[i], p[i + 1])
    {
      assert IsParent(full, p[i], p[i + 1]);
    }
    assert Joins(local, p, b, a);
  }

  lemma ChangeAgrees(git: Git, whole: Git, local: Dag, full: Dag, name: string, before: Oid, after: Oid)
    requires Answers(git, local) && Answers(whole, full) && IntervalClosed(local, full)
    ensures ChangeOf(Some(git), name, before, after) in {Unknown, ChangeOf(Some(whole), name, before, after)}
  {
    if HasObject(git, before) && HasObject(git, after) && !IsNull(before) {
      if Reaches(local, after, before) { ReachesInFull(local, full, after, before); }
      if Reaches(full, after, before) {
        ReachesOnlyObjects(full, after, before);
        ReachesInLocal(local, full, after, before);
      }
    }
  }

  /** A verifier whose graph is closed under ancestry intervals never contradicts one with
      the whole graph: it agrees, or it cannot tell. */
  lemma PartialVerdictAgrees(git: Git, whole: Git, local: Dag, full: Dag, before: Refs, after: Refs)
    requires Answers(git, local) && Answers(whole, full) && IntervalClosed(local, full)
    ensures Classified(Some(git), before, after) in {Unverifiable, Classified(Some(whole), before, after)}
  {
    forall name, c | name in before && Says(Some(git), before, after, name, c) && c != Unknown
      ensures Says(Some(whole), before, after, name, c)
    {
      ChangeAgrees(git, whole, local, full, name, before[name], after[name]);
    }
    var mine, theirs := Classified(Some(git), before, after), Classified(Some(whole), before, after);
    if mine == FastForward {
      forall name | name in before
        ensures Says(Some(whole), before, after, name, Fine)
      {
        var c := ChangeOf(Some(git), name, before[name], after[name]);
        assert Says(Some(git), before, after, name, c);
      }
    }
  }

  /** Without that closure a partial graph can contradict, in one way: on a branch whose two
      commits it holds, exactly when the path between them is missing from it. */
  lemma ContradictsIffPathMissing(git: Git, whole: Git, local: Dag, full: Dag, name: string, before: Oid, after: Oid)
    requires Answers(git, local) && Answers(whole, full) && SubDag(local, full)
    requires !IsTag(name) && before != after && before in local && after in local
    ensures ChangeOf(Some(git), name, before, after) != ChangeOf(Some(whole), name, before, after)
            <==> Reaches(full, after, before) && !Reaches(local, after, before)
    ensures ChangeOf(Some(git), name, before, after) != ChangeOf(Some(whole), name, before, after) ==>
              ChangeOf(Some(git), name, before, after) == Bad
  {
    if Reaches(local, after, before) { ReachesInFull(local, full, after, before); }
  }

  /** A repository that answers from `dag`. */
  ghost function Answering(dag: Dag): Git { Git(dag.Keys, (a, b) => Reaches(dag, b, a)) }

  /** Three commits in a row, of which a graft kept the outer two: the update from the first to
      the last is a fast-forward, and the grafted verifier calls it the opposite. */
  lemma GraftContradicts()
    ensures var full: Dag, local: Dag := map["a" := {}, "b" := {"a"}, "c" := {"b"}], map["a" := {}, "c" := {}];
            var name := "refs/heads/main";
            && SubDag(local, full) && Answers(Answering(full), full) && Answers(Answering(local), local)
            && Classified(Some(Answering(full)), map[name := "a"], map[name := "c"]) == FastForward
            && Classified(Some(Answering(local)), map[name := "a"], map[name := "c"]) == NonFastForward
  {
    var full: Dag, local: Dag := map["a" := {}, "b" := {"a"}, "c" := {"b"}], map["a" := {}, "c" := {}];
    var name, whole, mine := "refs/heads/main", Answering(full), Answering(local);
    var path := ["c", "b", "a"];
    assert IsParent(full, path[0], path[1]) && IsParent(full, path[1], path[2]);
    assert Joins(full, path, "c", "a");
    NoLink(local, "c", "a");
    assert "a"[0] in "a" && "b"[0] in "b" && "c"[0] in "c";
    assert !IsNull("a") && !IsNull("b") && !IsNull("c");
    assert name[5] == 'h' && "refs/tags/"[5] == 't' && !IsTag(name);
    assert ChangeOf(Some(whole), name, "a", "c") == Fine;
    assert Says(Some(mine), map[name := "a"], map[name := "c"], name, Bad);
  }

  lemma NoLink(dag: Dag, from: Oid, to: Oid)
    requires from in dag && dag[from] == {} && from != to
    ensures !Reaches(dag, from, to)
  {
    assert forall x :: !IsParent(dag, from, x);
    forall path
      ensures !Joins(dag, path, from, to)
    {
      assert IsPath(dag, path) && |path| > 1 ==> IsParent(dag, path[0], path[1]);
    }
  }
}
