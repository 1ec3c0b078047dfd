/** Ties the sealing pipeline to the push protocol: a planned head is a head that the
    protocol's planning step may send. */
module Pushes {
  import opened Bytes
  import opened Primitives
  import opened RefHeads
  import opened HeadFormats
  import opened Chunker
  import opened Bundles
  import HeadStore
  import Reconcile
  import PushProtocol
  import PushGuarantees
  import opened ForkCompare
  import ForkGuarantees

  /** The group's key of each epoch. A member holds those of its own ring. */
  type KeyRing = u64 -> Option<Bytes32>

  /** The refs sealed in a head, read with the key of its epoch. */
  function OpenRefs(s: Suite, json: Json, keys: KeyRing, h: RefHead): Option<Reconcile.Refs> {
    if keys(h.epoch).None? then None
    else
      var m := OpenRefsMap(s, json, keys(h.epoch).value, h);
      if m.Ok? then Some(m.value.refs) else None
  }

  /** The protocol run with the real codec, hash and decryption. */
  function Deployed(s: Suite, json: Json, keys: KeyRing, maxRetries: nat): PushProtocol.Config {
    PushProtocol.Config(Tls(s.sha512), h => OpenRefs(s, json, keys, h), maxRetries)
  }

  lemma SignedRefsOpen(s: Suite, json: Json, f: Framing, p: Place, m: RefsMap, sig: Opaque, cosig: Option<Opaque>)
    requires Sealable(json, m) && json.read(json.write(m)) == Some(m)
    ensures OpenRefsMap(s, json, p.ke, PlannedHead(s, json, f, p, m).(pusherSig := sig, adminCosig := cosig)) == Ok(m)
  {
    PlannedRefsOpen(s, json, f, p, m);
  }

  /** A head planned on the tip, signed or not, is one that the planning step accepts, and
      members with its epoch key read the merged refs from it. */
  lemma PlannedHeadIsPlan(s: Suite, json: Json, keys: KeyRing, maxRetries: nat, f: Framing, p: Place, m: RefsMap,
                          push: PushProtocol.Push, tip: Option<RefHead>, sig: Opaque, cosig: Option<Opaque>)
    requires Sealable(json, m) && json.read(json.write(m)) == Some(m) && keys(p.epoch) == Some(p.ke)
    requires p.prev == HashOf(Tls(s.sha512).hash, tip) && p.seqNo == HeadStore.NextSeq(tip)
    requires p.epoch == push.ring.epoch && p.nonFf == push.force
    ensures PushProtocol.IsPlan(Deployed(s, json, keys, maxRetries), tip, m.refs, push,
                                PlannedHead(s, json, f, p, m).(pusherSig := sig, adminCosig := cosig))
  {
    SignedRefsOpen(s, json, f, p, m, sig, cosig);
  }

  /** The refs read from the predecessor of commit `i`. */
  function OpenedBefore(cfg: PushProtocol.Config, commits: seq<PushProtocol.Commit>, i: nat): Option<Reconcile.Refs>
    requires i < |commits|
  {
    if i == 0 then Some(map[]) else cfg.open(commits[i - 1].head)
  }

  lemma OpensAll(cfg: PushProtocol.Config, events: seq<PushProtocol.Event>, i: nat)
    requires Lossless(cfg.format) && i < |PushProtocol.Run(cfg, events).commits|
    ensures cfg.open(PushProtocol.Run(cfg, events).commits[i].head).Some?
  {
    PushProtocol.RunKeeps(cfg, events);
    assert PushProtocol.CommitOk(cfg, PushProtocol.Run(cfg, events).commits, i);
  }

  lemma OpenedRefsAreMerges(cfg: PushProtocol.Config, events: seq<PushProtocol.Event>, i: nat)
    requires Lossless(cfg.format) && i < |PushProtocol.Run(cfg, events).commits|
    ensures var commits := PushProtocol.Run(cfg, events).commits;
            var before, after, push := OpenedBefore(cfg, commits, i), cfg.open(commits[i].head), commits[i].push;
            && before.Some? && after.Some?
            && Reconcile.Merge(push.baseline, push.caller, before.value, push.force) == Ok(after.value)
  {
    PushGuarantees.CommitsAreMerges(cfg, events, i);
    OpensAll(cfg, events, i);
    if i > 0 { OpensAll(cfg, events, i - 1); }
  }

  /** So the guarantees of the protocol hold of the deployed system: in every interleaving,
      what a member decrypts from an accepted head is the merge of that push into what it
      decrypts from the predecessor. */
  lemma DecryptedRefsAreMerges(s: Suite, json: Json, keys: KeyRing, maxRetries: nat,
                               events: seq<PushProtocol.Event>, i: nat)
    requires i < |PushProtocol.Run(Deployed(s, json, keys, maxRetries), events).commits|
    ensures var cfg := Deployed(s, json, keys, maxRetries);
            var commits := PushProtocol.Run(cfg, events).commits;
            var before, after, push := OpenedBefore(cfg, commits, i), cfg.open(commits[i].head), commits[i].push;
            && after == OpenRefs(s, json, keys, commits[i].head)
            && before.Some? && after.Some?
            && Reconcile.Merge(push.baseline, push.caller, before.value, push.force) == Ok(after.value)
  {
    TlsIsLossless(s.sha512);
    OpenedRefsAreMerges(Deployed(s, json, keys, maxRetries), events, i);
  }

  /** Checkpoints taken at any two points of the log that a run committed, under any windows, are
      never refused and never forked. */
  lemma CommittedViewsAgree(cfg: PushProtocol.Config, events: seq<PushProtocol.Event>, d: Digests, repo: Bytes32,
                            p: nat, q: nat, wa: u64, wb: u64, witnesses: map<u64, Bytes>)
    requires Lossless(cfg.format) && p <= q <= |PushProtocol.Run(cfg, events).commits|
    ensures var log := PushProtocol.Heads(PushProtocol.Run(cfg, events).commits);
            var a := ForkGuarantees.Export(cfg.format.hash, repo, log[..p], wa, witnesses);
            var b := ForkGuarantees.Export(cfg.format.hash, repo, log[..q], wb, witnesses);
            && Refusal(d, ForkGuarantees.Bound(d, a), ForkGuarantees.Bound(d, b)).None?
            && !Stages(d, a, b).Forked?
  {
    var log := PushProtocol.Heads(PushProtocol.Run(cfg, events).commits);
    CommittedLogIsOne(cfg, events);
    ForkGuarantees.HonestViewsAgree(cfg.format.hash, d, repo, log, p, q, wa, wb, witnesses, witnesses, witnesses);
  }

  lemma CommittedLogIsOne(cfg: PushProtocol.Config, events: seq<PushProtocol.Event>)
    requires Lossless(cfg.format)
    ensures ForkGuarantees.OneLog(cfg.format.hash, PushProtocol.Heads(PushProtocol.Run(cfg, events).commits))
  {
    PushProtocol.RunKeeps(cfg, events);
    PushGuarantees.CommittedChain(cfg, PushProtocol.Run(cfg, events));
    var commits := PushProtocol.Run(cfg, events).commits;
    forall i, j | 0 <= i <= j < |commits|
      ensures PushProtocol.Heads(commits)[i].epoch <= PushProtocol.Heads(commits)[j].epoch
    {
      PushGuarantees.EpochsNeverFall(cfg, events, i, j);
    }
  }
}
