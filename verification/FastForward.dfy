/** Fast-forward classification over a possibly partial object graph, the force-push
    policy, and what the two protect. */
module FastForward {
  import opened Bytes
  import opened Primitives
  import opened RefHeads
  import opened Reconcile
  import Quorum

  type Oid = string

  /** Commits and their parents. */
  type Dag = map<Oid, set<Oid>>

  /** A local repository as its two queries: which objects it holds, and which of two
      commits descends from the other. */
  datatype Git = Git(objects: set<Oid>, isAncestor: (Oid, Oid) -> bool)

  datatype FfStatus = FastForward | NonFastForward | Unverifiable

  // ---- Ancestry -----------------------------------------------------------------------------------

  ghost predicate IsPath(dag: Dag, path: seq<Oid>) {
    && path != [] && (forall i :: 0 <= i < |path| ==> path[i] in dag)
    && (forall i :: 0 <= i < |path| - 1 ==> IsParent(dag, path[i], path[i + 1]))
  }

  predicate IsParent(dag: Dag, child: Oid, parent: Oid) { child in dag && parent in dag[child] }

  ghost predicate Joins(dag: Dag, path: seq<Oid>, from: Oid, to: Oid) {
    IsPath(dag, path) && path[0] == from && path[|path| - 1] == to
  }

  /** Following parents leads from `from` to `to`. */
  ghost predicate Reaches(dag: Dag, from: Oid, to: Oid) {
    exists path :: Joins(dag, path, from, to)
  }

  /** `git` answers from the graph `dag`, where no object has a null name. */
  ghost predicate Answers(git: Git, dag: Dag) {
    && git.objects == dag.Keys
    && (forall a, b :: git.isAncestor(a, b) <==> Reaches(dag, b, a))
    && (forall x :: x in dag ==> !IsNull(x))
  }

  predicate IsNull(oid: Oid) { forall c :: c in oid ==> c == '0' }

  predicate IsTag(name: string) { "refs/tags/" <= name }

  // ---- Classification ---------------------------------------------------------------------------------

  predicate HasObject(git: Git, oid: Oid) { IsNull(oid) || oid in git.objects }

  predicate IsFastForward(git: Git, before: Oid, after: Oid) {
    IsNull(before) || before == after || git.isAncestor(before, after)
  }

  datatype RefChange = Fine | Bad | Unknown

  /** What one kept ref says about an update. */
  function ChangeOf(git: Option<Git>, name: string, before: Oid, after: Oid): RefChange {
    if before == after then Fine
    else if IsTag(name) then Bad
    else if git.None? || !HasObject(git.value, before) || !HasObject(git.value, after) then Unknown
    else if IsFastForward(git.value, before, after) then Fine
    else Bad
  }

  predicate Says(git: Option<Git>, before: Refs, after: Refs, name: string, c: RefChange) {
    name in before && name in after && ChangeOf(git, name, before[name], after[name]) == c
  }

  predicate Deletes(before: Refs, after: Refs) { exists name :: name in before && name !in after }

  /** Bad beats unknown beats fine, whatever the order in which refs are visited. */
  function Classified(git: Option<Git>, before: Refs, after: Refs): FfStatus {
    if Deletes(before, after) then NonFastForward
    else if exists name :: name in before && Says(git, before, after, name, Bad) then NonFastForward
    else if exists name :: name in before && Says(git, before, after, name, Unknown) then Unverifiable
    else FastForward
  }

  /** One changed ref. */
  method ChangeRef(git: Option<Git>, name: string, before: Oid, after: Oid) returns (c: RefChange)
    requires before != after
    ensures c == ChangeOf(git, name, before, after)
  {
    if IsTag(name) { return Bad; }
    if git.None? { return Unknown; }
    if !HasObject(git.value, before) || !HasObject(git.value, after) { return Unknown; }
    if !IsFastForward(git.value, before, after) { return Bad; }
    c := Fine;
  }

  method FindDeletion(before: Refs, after: Refs) returns (found: bool)
    ensures found <==> Deletes(before, after)
  {
    var todo := before.Keys;
    while todo != {}
      invariant todo <= before.Keys && forall name :: name in before && name !in todo ==> name in after
      decreases |todo|
    {
      var name :| name in todo;
      if name !in after { return true; }
      todo := todo - {name};
    }
    found := false;
  }

  /** Refs are visited in any order, and the first bad one ends the search. */
  method ClassifyFf(git: Option<Git>, before: Refs, after: Refs) returns (status: FfStatus)
    ensures status == Classified(git, before, after)
  {
    var deletes := FindDeletion(before, after);
    if deletes { return NonFastForward; }
    var unverifiable := false;
    var todo := after.Keys;
    while todo != {}
      invariant todo <= after.Keys
      invariant forall name :: name in after && name !in todo ==> !Says(git, before, after, name, Bad)
      invariant unverifiable <==>
                  exists name :: name in after && name !in todo && Says(git, before, after, name, Unknown)
      decreases |todo|
    {
      var name :| name in todo;
      todo := todo - {name};
      if name in before && before[name] != after[name] {
        var change := ChangeRef(git, name, before[name], after[name]);
        if change == Bad { return NonFastForward; }
        if change == Unknown {
          assert Says(git, before, after, name, Unknown);
          unverifiable := true;
        }
      }
    }
    status := if unverifiable then Unverifiable else FastForward;
  }

  // ---- The policy -----------------------------------------------------------------------------------------

  const POLICY_VERSION: u32 := 1

  datatype PolicyError = FalselyLabelled | MissingCosig | KeyRequired | BadCosig

  /** What an admin co-signature on a push states. */
  function PushStatement(sha: Bytes -> Digest, h: RefHead, refsDigest: Digest, roster: seq<Bytes>): Quorum.Cosigned
  {
    Quorum.Cosigned(h.repoId, h.epoch, Ascii("push"), h.seqNo, h.prev, refsDigest,
                    sha(Quorum.RosterInput(roster)), POLICY_VERSION)
  }

  predicate Cosigned(sha: Bytes -> Digest, verify: Quorum.VerifyFn, h: RefHead, vk: Option<Bytes>, refsDigest: Digest,
                     roster: seq<Bytes>)
  {
    h.adminCosig.Some? && vk.Some?
    && verify(vk.value, Quorum.CosigMessage(PushStatement(sha, h, refsDigest, roster)), h.adminCosig.value)
  }

  predicate Passes(sha: Bytes -> Digest, verify: Quorum.VerifyFn, h: RefHead, claimedNonFf: bool, status: FfStatus,
                   vk: Option<Bytes>, refsDigest: Digest, roster: seq<Bytes>)
  {
    status == FastForward
    || ((status == NonFastForward ==> claimedNonFf) && Cosigned(sha, verify, h, vk, refsDigest, roster))
  }

  /** Passes a fast-forward, and anything else only with an admin co-signature and, when it
      is known not to be one, an honest label. */
  method VerifyForcePushPolicyScoped(sha: Bytes -> Digest, verify: Quorum.VerifyFn, h: RefHead, claimedNonFf: bool,
                                     status: FfStatus, vk: Option<Bytes>, refsDigest: Digest, roster: seq<Bytes>)
    returns (r: Result<(), PolicyError>)
    ensures r.Ok? <==> Passes(sha, verify, h, claimedNonFf, status, vk, refsDigest, roster)
    ensures r.Err? && r.error == FalselyLabelled <==> status == NonFastForward && !claimedNonFf
  {
    match status {
      case FastForward => return Ok(());
      case NonFastForward => if !claimedNonFf { return Err(FalselyLabelled); }
      case Unverifiable =>
    }
    if h.adminCosig.None? { return Err(MissingCosig); }
    if vk.None? { return Err(KeyRequired); }
    var transcript := Quorum.RosterTranscript(roster);
    var msg := Quorum.AdminCosigMessage(Quorum.Cosigned(h.repoId, h.epoch, Ascii("push"), h.seqNo, h.prev, refsDigest,
                                                        sha(transcript), POLICY_VERSION));
    r := if verify(vk.value, msg, h.adminCosig.value) then Ok(()) else Err(BadCosig);
  }

  /** One co-signed message speaks for one head position, one ref digest and one roster up
      to order. */
  lemma CosigBindsPosition(sha: Bytes -> Digest, g: RefHead, h: RefHead, refsG: Digest, refsH: Digest,
                           rosterG: seq<Bytes>, rosterH: seq<Bytes>)
    requires Quorum.Short(rosterG) && Quorum.Short(rosterH)
    requires InjectiveOn(sha, {Quorum.RosterInput(rosterG), Quorum.RosterInput(rosterH)})
    ensures (Quorum.CosigMessage(PushStatement(sha, g, refsG, rosterG))
             == Quorum.CosigMessage(PushStatement(sha, h, refsH, rosterH)))
            <==> && g.repoId == h.repoId && g.epoch == h.epoch && g.seqNo == h.seqNo && g.prev == h.prev
                 && refsG == refsH && multiset(rosterG) == multiset(rosterH)
  {
    var x, y := PushStatement(sha, g, refsG, rosterG), PushStatement(sha, h, refsH, rosterH);
    Quorum.RosterInputIsMultiset(rosterG, rosterH);
    if Quorum.CosigMessage(x) == Quorum.CosigMessage(y) { Quorum.CosigMessageInjective(x, y); }
  }
}
