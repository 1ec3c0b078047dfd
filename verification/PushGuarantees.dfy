/** What follows for every interleaving of pushes, retries and crashes. */
module PushGuarantees {
  import opened Bytes
  import opened Primitives
  import opened RefHeads
  import opened HeadFormats
  import opened HeadStore
  import opened CrashSafety
  import opened Reconcile
  import opened PushProtocol

  /** The ref map before and after the `i`-th commit of a run. */
  function Before(cfg: Config, events: seq<Event>, i: nat): Refs
    requires i < |Run(cfg, events).commits|
  {
    RefsAt(cfg, Run(cfg, events).commits, i)
  }

  function After(cfg: Config, events: seq<Event>, i: nat): Refs
    requires i < |Run(cfg, events).commits|
  {
    RefsAt(cfg, Run(cfg, events).commits, i + 1)
  }

  /** Serial: each accepted head carries exactly the merge of its own push into the
      ref map of its predecessor, and its baseline was the ref map some way back. No
      assumption on the hash is needed, because the sequence check pins the position. */
  lemma CommitsAreMerges(cfg: Config, events: seq<Event>, i: nat)
    requires Lossless(cfg.format) && i < |Run(cfg, events).commits|
    ensures var push := Run(cfg, events).commits[i].push;
            && push.basePos <= i
            && push.baseline == RefsAt(cfg, Run(cfg, events).commits, push.basePos)
            && Merge(push.baseline, push.caller, Before(cfg, events, i), push.force) == Ok(After(cfg, events, i))
  {
    RunKeeps(cfg, events);
    assert CommitOk(cfg, Run(cfg, events).commits, i);
  }

  /** An ordinary push leaves refs it did not mean to write, drops none, and changes a
      ref only from the value it had seen. */
  lemma OrdinaryPushIsSafe(cfg: Config, events: seq<Event>, i: nat, k: string)
    requires Lossless(cfg.format) && i < |Run(cfg, events).commits|
    requires !Run(cfg, events).commits[i].push.force
    ensures var push := Run(cfg, events).commits[i].push;
            var before, after := At(Before(cfg, events, i), k), At(After(cfg, events, i), k);
            && (At(push.caller, k) == At(push.baseline, k) ==> after == before)
            && (before.Some? ==> after.Some?)
            && (after != before ==> after == At(push.caller, k) && (before.None? || before == At(push.baseline, k)))
  {
    CommitsAreMerges(cfg, events, i);
    var push := Run(cfg, events).commits[i].push;
    MergesPerRef(push.baseline, push.caller, Before(cfg, events, i), push.force);
    assert MergeAt(push.baseline, push.caller, Before(cfg, events, i), push.force, k)
        == Some(At(After(cfg, events, i), k));
  }

  /** The first commit from `p` on that changes ref `k`. */
  ghost predicate Replaces(cfg: Config, commits: seq<Commit>, k: string, p: nat, i: nat)
    requires p <= i < |commits|
  {
    && (forall j :: p <= j <= i ==> At(RefsAt(cfg, commits, j), k) == At(RefsAt(cfg, commits, p), k))
    && At(RefsAt(cfg, commits, i + 1), k) != At(RefsAt(cfg, commits, p), k)
  }

  lemma {:induction false} FirstReplacement(cfg: Config, commits: seq<Commit>, k: string, p: nat, q: nat)
    returns (i: nat)
    requires p <= q <= |commits|
    requires At(RefsAt(cfg, commits, p), k) != At(RefsAt(cfg, commits, q), k)
    ensures p <= i < q && Replaces(cfg, commits, k, p, i)
  {
    i := p;
    while At(RefsAt(cfg, commits, i + 1), k) == At(RefsAt(cfg, commits, p), k)
      invariant p <= i < q
      invariant forall j :: p <= j <= i ==> At(RefsAt(cfg, commits, j), k) == At(RefsAt(cfg, commits, p), k)
      decreases q - i
    {
      i := i + 1;
    }
  }

  /** No lost update: if a ref present after `p` commits is different after `q`, the
      push that first replaced it either was forced or had read that very value. */
  lemma NoLostUpdate(cfg: Config, events: seq<Event>, k: string, p: nat, q: nat) returns (i: nat)
    requires Lossless(cfg.format) && p <= q <= |Run(cfg, events).commits|
    requires var commits := Run(cfg, events).commits;
             k in RefsAt(cfg, commits, p) && At(RefsAt(cfg, commits, p), k) != At(RefsAt(cfg, commits, q), k)
    ensures p <= i < q
    ensures var commits := Run(cfg, events).commits;
            var push := commits[i].push;
            && Replaces(cfg, commits, k, p, i)
            && push.basePos <= i
            && (push.force || At(RefsAt(cfg, commits, push.basePos), k) == At(RefsAt(cfg, commits, p), k))
            && At(RefsAt(cfg, commits, i + 1), k) == At(push.caller, k)
  {
    var commits := Run(cfg, events).commits;
    i := FirstReplacement(cfg, commits, k, p, q);
    CommitsAreMerges(cfg, events, i);
    var push := commits[i].push;
    MergesPerRef(push.baseline, push.caller, Before(cfg, events, i), push.force);
    assert MergeAt(push.baseline, push.caller, Before(cfg, events, i), push.force, k)
        == Some(At(After(cfg, events, i), k));
    assert At(RefsAt(cfg, commits, i), k) == At(RefsAt(cfg, commits, p), k);
  }

  /** While no push is forced, the set of refs only grows. */
  lemma {:induction false} OrdinaryRunsNeverDrop(cfg: Config, events: seq<Event>, p: nat, q: nat)
    requires Lossless(cfg.format) && p <= q <= |Run(cfg, events).commits|
    requires forall i :: p <= i < q ==> !Run(cfg, events).commits[i].push.force
    ensures var commits := Run(cfg, events).commits;
            RefsAt(cfg, commits, p).Keys <= RefsAt(cfg, commits, q).Keys
  {
    if p < q {
      OrdinaryRunsNeverDrop(cfg, events, p, q - 1);
      var before, after := Before(cfg, events, q - 1), After(cfg, events, q - 1);
      forall k | k in before
        ensures k in after
      {
        OrdinaryPushIsSafe(cfg, events, q - 1, k);
      }
    }
  }

  /** Every retry is paid for: a client that has lost `attempt` races has seen at least
      that many other heads committed since it took its baseline. */
  lemma RetriesArePaidFor(cfg: Config, events: seq<Event>, c: nat)
    requires Lossless(cfg.format)
    ensures var s := Run(cfg, events);
            match ClientAt(s, c)
            case Planning(push, attempt) => attempt <= cfg.maxRetries && push.basePos + attempt <= |s.commits|
            case Sending(push, attempt, _, _) => attempt <= cfg.maxRetries && push.basePos + attempt <= |s.commits|
            case _ => true
  {
    RunKeeps(cfg, events);
  }

  /** Lock freedom: a send that loses the compare-and-swap lost it to another commit, and
      one that nothing overtook is accepted and acknowledged. */
  lemma ConflictMeansProgress(cfg: Config, events: seq<Event>, c: nat)
    requires Lossless(cfg.format) && ClientAt(Run(cfg, events), c).Sending?
    ensures var s := Run(cfg, events);
            var client := s.clients[c];
            var after := ClientAt(Run(cfg, events + [Send(c, NoFault)]), c);
            && (after == Done(client.head) <==> client.readPos == |s.commits|)
            && (after.Planning? ==> client.readPos < |s.commits|)
  {
    RunKeeps(cfg, events);
    SendOutcome(cfg, Run(cfg, events), c, NoFault);
    assert (events + [Send(c, NoFault)])[..|events|] == events;
  }

  // ---- Epochs --------------------------------------------------------------------

  /** Committed epochs never fall in any run: a member seals under its own epoch, and it must
      have opened the head before, for which it can hold no key of a later epoch. */
  lemma {:induction false} EpochsNeverFall(cfg: Config, events: seq<Event>, i: nat, j: nat)
    requires Lossless(cfg.format) && i <= j < |Run(cfg, events).commits|
    ensures Run(cfg, events).commits[i].head.epoch <= Run(cfg, events).commits[j].head.epoch
    decreases j - i
  {
    if i < j {
      EpochsNeverFall(cfg, events, i, j - 1);
      RunKeeps(cfg, events);
      assert CommitOk(cfg, Run(cfg, events).commits, j);
    }
  }

  // ---- Durability --------------------------------------------------------------

  lemma StepOnlyAppends(cfg: Config, s: System, e: Event)
    ensures s.commits <= Step(cfg, s, e).commits && s.acked <= Step(cfg, s, e).acked
  {
  }

  /** The committed log only grows: the tip never regresses and no commit changes. */
  lemma {:induction false} RunsOnlyAppend(cfg: Config, events: seq<Event>, more: seq<Event>)
    ensures Run(cfg, events).commits <= Run(cfg, events + more).commits
    ensures Run(cfg, events).acked <= Run(cfg, events + more).acked
  {
    if more == [] {
      assert events + more == events;
    } else {
      var shorter := more[..|more| - 1];
      RunsOnlyAppend(cfg, events, shorter);
      assert (events + more)[..|events + more| - 1] == events + shorter;
      StepOnlyAppends(cfg, Run(cfg, events + shorter), more[|more| - 1]);
    }
  }

  /** An acknowledged head keeps its log file and its place, whatever happens next. */
  lemma AcknowledgedIsDurable(cfg: Config, events: seq<Event>, more: seq<Event>, h: RefHead)
    requires Lossless(cfg.format) && h in Run(cfg, events).acked
    ensures var s := Run(cfg, events + more);
            && h.seqNo in s.disk.log && s.disk.log[h.seqNo] == cfg.format.encode(h)
            && 1 <= h.seqNo <= |s.commits| && s.commits[h.seqNo - 1].head == h
  {
    RunsOnlyAppend(cfg, events, more);
    RunKeeps(cfg, events + more);
    var s := Run(cfg, events + more);
    var heads := Heads(s.commits);
    var served :| Represents(cfg.format, s.disk, heads, served);
    var i :| 0 <= i < |heads| && heads[i] == h;
    assert served[i] == h && h.seqNo == i + 1;
  }

  /** In any run at most one accepted head names a given predecessor. */
  lemma OneAcceptedSuccessor(cfg: Config, events: seq<Event>, i: nat, j: nat)
    requires Lossless(cfg.format) && i < j < |Run(cfg, events).commits|
    requires var heads := Heads(Run(cfg, events).commits);
             NoCollision(cfg.format.hash, SetOf(heads)) && forall h :: h in heads ==> cfg.format.hash(h) != ZERO_HASH
    ensures var commits := Run(cfg, events).commits;
            commits[i].head.prev != commits[j].head.prev
  {
    RunKeeps(cfg, events);
    CommittedChain(cfg, Run(cfg, events));
    OneSuccessorPerHead(cfg.format.hash, Heads(Run(cfg, events).commits), i, j);
  }

  lemma CommittedChain(cfg: Config, s: System)
    requires LogOk(cfg, s)
    ensures Chained(cfg.format.hash, Heads(s.commits))
  {
    var heads := Heads(s.commits);
    var served :| Represents(cfg.format, s.disk, heads, served);
    assert served[..|heads|] == heads;
    ChainedPrefix(cfg.format.hash, served, |heads|);
  }
}
