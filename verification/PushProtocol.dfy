/** Any number of clients run the optimistic push loop against one store. An event is
    one atomic step: a client reads the tip and takes its baseline, reads the tip again
    and plans a head, or sends that head, with an append that may be cut short. */
module PushProtocol {
  import opened Bytes
  import opened Primitives
  import opened RefHeads
  import opened HeadFormats
  import opened HeadStore
  import opened CrashSafety
  import opened Reconcile

  /** What a member's key material can open: heads of the epochs it holds keys for, none of
      them later than the epoch it is in and seals under. */
  datatype Ring = Ring(epoch: u64, holds: set<u64>) {
    predicate Valid() { epoch in holds && forall e :: e in holds ==> e <= epoch }
  }

  /** What one call of the push loop was asked to do, and the material it was given. `basePos`
      records, for the proofs, how many heads were committed when the baseline was read. */
  datatype Push = Push(baseline: Refs, basePos: nat, caller: Refs, force: bool, ring: Ring)

  datatype Client =
    | Idle
    | Planning(push: Push, attempt: nat)
    | Sending(push: Push, attempt: nat, readPos: nat, head: RefHead)
    | Done(head: RefHead)
    | Failed

  datatype Commit = Commit(head: RefHead, push: Push)

  /** `commits` and `acked` are history: the accepted heads in order, and those whose
      acceptance the pusher learned. */
  datatype System = System(disk: Disk, clients: map<nat, Client>, commits: seq<Commit>, acked: set<RefHead>)

  datatype Event =
    | Begin(c: nat, caller: Refs, force: bool, ring: Ring)
    | Plan(c: nat, head: RefHead)
    | Send(c: nat, fault: Fault)

  /** `open` decrypts the ref map a head seals with the key of the head's epoch; `None` is a
      failed decryption. */
  datatype Config = Config(format: HeadFormat, open: RefHead -> Option<Refs>, maxRetries: nat)

  function Init(): System { System(Disk(None, map[]), map[], [], {}) }

  function ClientAt(s: System, c: nat): Client { if c in s.clients then s.clients[c] else Idle }

  function WithClient(s: System, c: nat, client: Client): System { s.(clients := s.clients[c := client]) }

  /** The refs a client with the keys of `ring` sees at the tip. */
  function TipRefs(cfg: Config, s: System, ring: Ring): Option<Refs> {
    match TipOf(cfg.format, s.disk)
    case Err(_) => None
    case Ok(None) => Some(map[])
    case Ok(Some(h)) => if h.epoch in ring.holds then cfg.open(h) else None
  }

  function Step(cfg: Config, s: System, e: Event): System {
    match e
    case Begin(c, caller, force, ring) =>
      if !ring.Valid() then s
      else
        var refs := TipRefs(cfg, s, ring);
        if refs.None? then WithClient(s, c, Failed)
        else WithClient(s, c, Planning(Push(refs.value, |s.commits|, caller, force, ring), 0))
    case Plan(c, head) =>
      var client := ClientAt(s, c);
      if !client.Planning? then s
      else
        var push := client.push;
        var refs := TipRefs(cfg, s, push.ring);
        if refs.None? then WithClient(s, c, Failed)
        else
          var merged := Merge(push.baseline, push.caller, refs.value, push.force);
          if merged.Err? then WithClient(s, c, Failed)
          else if IsPlan(cfg, TipOf(cfg.format, s.disk).value, merged.value, push, head) then
            WithClient(s, c, Sending(push, client.attempt, |s.commits|, head))
          else s
    case Send(c, fault) =>
      var client := ClientAt(s, c);
      if !client.Sending? then s
      else
        var (disk, reply) := Append(cfg.format, s.disk, client.head, fault);
        var wrote := reply.Ok? || (reply == Err(Io) && fault == LoseReply);
        var after := System(disk, s.clients,
                            if wrote then s.commits + [Commit(client.head, client.push)] else s.commits,
                            if reply.Ok? then s.acked + {client.head} else s.acked);
        WithClient(after, c,
          if reply.Ok? then Done(client.head)
          else if reply.error.CasConflict? && client.attempt < cfg.maxRetries then
            Planning(client.push, client.attempt + 1)
          else Failed)
  }

  /** The head the planner builds on the tip it just read. */
  predicate IsPlan(cfg: Config, tip: Option<RefHead>, refs: Refs, push: Push, head: RefHead) {
    && head.prev == HashOf(cfg.format.hash, tip)
    && head.seqNo == NextSeq(tip)
    && cfg.open(head) == Some(refs)
    && head.nonFf == push.force
    && head.epoch == push.ring.epoch
  }

  function Run(cfg: Config, events: seq<Event>): System {
    if events == [] then Init() else Step(cfg, Run(cfg, events[..|events| - 1]), events[|events| - 1])
  }

  // ---- The invariant -----------------------------------------------------------

  function Heads(commits: seq<Commit>): (hs: seq<RefHead>)
    ensures |hs| == |commits|
    ensures forall i :: 0 <= i < |hs| ==> hs[i] == commits[i].head
  {
    seq(|commits|, i requires 0 <= i < |commits| => commits[i].head)
  }

  /** The ref map after the first `pos` commits. */
  function RefsAt(cfg: Config, commits: seq<Commit>, pos: nat): Refs
    requires pos <= |commits|
  {
    if pos == 0 || cfg.open(commits[pos - 1].head).None? then map[]
    else cfg.open(commits[pos - 1].head).value
  }

  ghost predicate BaselineSeen(cfg: Config, commits: seq<Commit>, push: Push, pos: nat) {
    push.basePos <= pos <= |commits| && RefsAt(cfg, commits, push.basePos) == push.baseline
  }

  /** The head carries the merge of the push into the state right before it. */
  ghost predicate IsMergeAt(cfg: Config, commits: seq<Commit>, push: Push, pos: nat, head: RefHead)
    requires pos <= |commits|
  {
    && cfg.open(head).Some?
    && Merge(push.baseline, push.caller, RefsAt(cfg, commits, pos), push.force) == Ok(cfg.open(head).value)
    && head.nonFf == push.force
    && head.epoch == push.ring.epoch
    && Follows(commits, pos, push.ring)
  }

  /** A member with these keys could open the head that position `pos` follows. */
  ghost predicate Follows(commits: seq<Commit>, pos: nat, ring: Ring)
    requires pos <= |commits|
  {
    ring.Valid() && (pos > 0 ==> commits[pos - 1].head.epoch in ring.holds)
  }

  ghost predicate CommitOk(cfg: Config, commits: seq<Commit>, i: nat)
    requires i < |commits|
  {
    BaselineSeen(cfg, commits, commits[i].push, i) && IsMergeAt(cfg, commits, commits[i].push, i, commits[i].head)
  }

  ghost predicate ClientOk(cfg: Config, commits: seq<Commit>, acked: set<RefHead>, client: Client) {
    match client
    case Planning(push, attempt) =>
      && BaselineSeen(cfg, commits, push, |commits|) && push.ring.Valid()
      && attempt <= cfg.maxRetries && attempt <= |commits| - push.basePos
    case Sending(push, attempt, readPos, head) =>
      && BaselineSeen(cfg, commits, push, readPos)
      && attempt <= cfg.maxRetries && attempt <= readPos - push.basePos
      && IsMergeAt(cfg, commits, push, readPos, head)
      && head.seqNo == readPos + 1
      && head.prev == HashOf(cfg.format.hash, LastOf(Heads(commits)[..readPos]))
    case Done(head) => head in acked
    case _ => true
  }

  ghost predicate LogOk(cfg: Config, s: System) {
    exists served :: Represents(cfg.format, s.disk, Heads(s.commits), served)
  }

  ghost predicate Inv(cfg: Config, s: System) {
    && LogOk(cfg, s)
    && (forall i :: 0 <= i < |s.commits| ==> CommitOk(cfg, s.commits, i))
    && (forall c :: c in s.clients ==> ClientOk(cfg, s.commits, s.acked, s.clients[c]))
    && (forall h :: h in s.acked ==> h in Heads(s.commits))
  }

  lemma TipSeen(cfg: Config, s: System)
    requires Lossless(cfg.format) && Inv(cfg, s)
    ensures TipOf(cfg.format, s.disk) == Ok(LastOf(Heads(s.commits)))
    ensures NextSeq(LastOf(Heads(s.commits))) == |s.commits| + 1
    ensures Heads(s.commits)[..|s.commits|] == Heads(s.commits)
  {
    var served :| Represents(cfg.format, s.disk, Heads(s.commits), served);
    TipIsLast(cfg.format, s.disk, Heads(s.commits), served);
  }

  /** A member that reads the tip reads the committed refs, and follows the last commit. */
  lemma TipRead(cfg: Config, s: System, ring: Ring)
    requires Lossless(cfg.format) && Inv(cfg, s) && ring.Valid() && TipRefs(cfg, s, ring).Some?
    ensures TipRefs(cfg, s, ring).value == RefsAt(cfg, s.commits, |s.commits|)
    ensures Follows(s.commits, |s.commits|, ring)
  {
    TipSeen(cfg, s);
    if s.commits != [] { assert Heads(s.commits)[|s.commits| - 1] == s.commits[|s.commits| - 1].head; }
  }

  /** Facts about the committed prefix survive a further commit. */
  lemma MoreCommits(cfg: Config, commits: seq<Commit>, next: Commit, acked: set<RefHead>, more: set<RefHead>,
                    client: Client)
    requires ClientOk(cfg, commits, acked, client) && acked <= more
    ensures ClientOk(cfg, commits + [next], more, client)
  {
    if client.Sending? {
      assert Heads(commits + [next])[..client.readPos] == Heads(commits)[..client.readPos];
    }
  }

  lemma InitKeeps(cfg: Config)
    ensures Inv(cfg, Init())
  {
    assert Represents(cfg.format, Init().disk, Heads([]), []);
  }

  /** Replacing one client keeps the invariant when the new one is consistent. */
  lemma ClientKeeps(cfg: Config, s: System, c: nat, client: Client)
    requires Inv(cfg, s) && ClientOk(cfg, s.commits, s.acked, client)
    ensures Inv(cfg, WithClient(s, c, client))
  {
  }

  lemma BeginKeeps(cfg: Config, s: System, c: nat, caller: Refs, force: bool, ring: Ring)
    requires Lossless(cfg.format) && Inv(cfg, s)
    ensures Inv(cfg, Step(cfg, s, Begin(c, caller, force, ring)))
  {
    if ring.Valid() {
      var refs := TipRefs(cfg, s, ring);
      if refs.None? {
        ClientKeeps(cfg, s, c, Failed);
      } else {
        TipRead(cfg, s, ring);
        ClientKeeps(cfg, s, c, Planning(Push(refs.value, |s.commits|, caller, force, ring), 0));
      }
    }
  }

  /** A planned head is the merge at the position that was read. */
  lemma PlanIsMerge(cfg: Config, s: System, push: Push, attempt: nat, refs: Refs, head: RefHead)
    requires Lossless(cfg.format) && Inv(cfg, s) && ClientOk(cfg, s.commits, s.acked, Planning(push, attempt))
    requires TipRefs(cfg, s, push.ring).Some?
    requires Merge(push.baseline, push.caller, TipRefs(cfg, s, push.ring).value, push.force) == Ok(refs)
    requires IsPlan(cfg, TipOf(cfg.format, s.disk).value, refs, push, head)
    ensures ClientOk(cfg, s.commits, s.acked, Sending(push, attempt, |s.commits|, head))
  {
    TipSeen(cfg, s);
    TipRead(cfg, s, push.ring);
  }

  lemma PlanKeeps(cfg: Config, s: System, c: nat, head: RefHead)
    requires Lossless(cfg.format) && Inv(cfg, s)
    ensures Inv(cfg, Step(cfg, s, Plan(c, head)))
  {
    var client := ClientAt(s, c);
    if client.Planning? {
      TipSeen(cfg, s);
      ClientKeeps(cfg, s, c, Failed);
      var push := client.push;
      var refs := TipRefs(cfg, s, push.ring);
      if refs.Some? {
        var merged := Merge(push.baseline, push.caller, refs.value, push.force);
        if merged.Ok? && IsPlan(cfg, TipOf(cfg.format, s.disk).value, merged.value, push, head) {
          PlanIsMerge(cfg, s, push, client.attempt, merged.value, head);
          ClientKeeps(cfg, s, c, Sending(push, client.attempt, |s.commits|, head));
        }
      }
    }
  }

  /** A send commits only when nothing was committed since the client planned. */
  lemma SendOutcome(cfg: Config, s: System, c: nat, fault: Fault)
    requires Lossless(cfg.format) && Inv(cfg, s) && ClientAt(s, c).Sending?
    ensures var client := ClientAt(s, c);
            var (disk, reply) := Append(cfg.format, s.disk, client.head, fault);
            var wrote := reply.Ok? || (reply == Err(Io) && fault == LoseReply);
            && (wrote ==> client.readPos == |s.commits|)
            && (wrote ==> exists served :: Represents(cfg.format, disk, Heads(s.commits) + [client.head], served))
            && (!wrote ==> exists served :: Represents(cfg.format, disk, Heads(s.commits), served))
            && (reply.Err? && reply.error.CasConflict? ==> client.readPos < |s.commits|)
            && (client.readPos == |s.commits| && fault == NoFault ==> reply.Ok?)
  {
    var client := ClientAt(s, c);
    var served :| Represents(cfg.format, s.disk, Heads(s.commits), served);
    AppendKeepsLog(cfg.format, s.disk, Heads(s.commits), served, client.head, fault);
    assert Heads(s.commits)[..|s.commits|] == Heads(s.commits);
  }

  /** A commit at the position its push was merged for keeps every commit a merge. */
  lemma CommitExtends(cfg: Config, commits: seq<Commit>, next: Commit)
    requires forall i :: 0 <= i < |commits| ==> CommitOk(cfg, commits, i)
    requires BaselineSeen(cfg, commits, next.push, |commits|)
    requires IsMergeAt(cfg, commits, next.push, |commits|, next.head)
    ensures forall i :: 0 <= i <= |commits| ==> CommitOk(cfg, commits + [next], i)
  {
    var all := commits + [next];
    forall i | 0 <= i <= |commits|
      ensures CommitOk(cfg, all, i)
    {
      if i < |commits| { assert CommitOk(cfg, commits, i); }
    }
  }

  lemma CommittedSendKeeps(cfg: Config, s: System, client: Client, disk: Disk, c: nat, next: Client, more: set<RefHead>)
    requires Inv(cfg, s) && client.Sending? && ClientOk(cfg, s.commits, s.acked, client)
    requires client.readPos == |s.commits|
    requires exists served :: Represents(cfg.format, disk, Heads(s.commits) + [client.head], served)
    requires s.acked <= more <= s.acked + {client.head}
    requires next == Failed || (next == Done(client.head) && client.head in more)
    ensures Inv(cfg, WithClient(System(disk, s.clients, s.commits + [Commit(client.head, client.push)], more), c, next))
  {
    var commit := Commit(client.head, client.push);
    var all := s.commits + [commit];
    assert Heads(all) == Heads(s.commits) + [client.head];
    CommitExtends(cfg, s.commits, commit);
    forall d | d in s.clients
      ensures ClientOk(cfg, all, more, s.clients[d])
    {
      MoreCommits(cfg, s.commits, commit, s.acked, more, s.clients[d]);
    }
    assert Heads(all)[|s.commits|] == client.head;
  }

  lemma SendKeeps(cfg: Config, s: System, c: nat, fault: Fault)
    requires Lossless(cfg.format) && Inv(cfg, s)
    ensures Inv(cfg, Step(cfg, s, Send(c, fault)))
  {
    var client := ClientAt(s, c);
    if client.Sending? {
      SendOutcome(cfg, s, c, fault);
      var (disk, reply) := Append(cfg.format, s.disk, client.head, fault);
      if reply.Ok? {
        CommittedSendKeeps(cfg, s, client, disk, c, Done(client.head), s.acked + {client.head});
      } else if reply == Err(Io) && fault == LoseReply {
        CommittedSendKeeps(cfg, s, client, disk, c, Failed, s.acked);
      }
    }
  }

  /** Every state of every interleaving keeps the invariant. */
  lemma {:induction false} RunKeeps(cfg: Config, events: seq<Event>)
    requires Lossless(cfg.format)
    ensures Inv(cfg, Run(cfg, events))
  {
    if events == [] {
      InitKeeps(cfg);
    } else {
      var before := events[..|events| - 1];
      RunKeeps(cfg, before);
      match events[|events| - 1]
      case Begin(c, caller, force, ring) => BeginKeeps(cfg, Run(cfg, before), c, caller, force, ring);
      case Plan(c, head) => PlanKeeps(cfg, Run(cfg, before), c, head);
      case Send(c, fault) => SendKeeps(cfg, Run(cfg, before), c, fault);
    }
  }
}
