/** What the retry loop achieves: a push that does not lose more races than it may is
    accepted, and one that does is given up. */
module PushProgress {
  import opened Bytes
  import opened Primitives
  import opened RefHeads
  import opened HeadFormats
  import opened HeadStore
  import opened CrashSafety
  import opened Reconcile
  import opened PushProtocol

  /** The state after some more events. */
  function From(cfg: Config, s: System, events: seq<Event>): System {
    if events == [] then s else Step(cfg, From(cfg, s, events[..|events| - 1]), events[|events| - 1])
  }

  lemma {:induction false} FromSum(cfg: Config, s: System, a: seq<Event>, b: seq<Event>)
    ensures From(cfg, s, a + b) == From(cfg, From(cfg, s, a), b)
  {
    if b == [] {
      assert a + b == a;
    } else {
      assert (a + b)[..|a + b| - 1] == a + b[..|b| - 1];
      FromSum(cfg, s, a, b[..|b| - 1]);
    }
  }

  lemma {:induction false} RunIsFrom(cfg: Config, events: seq<Event>)
    ensures Run(cfg, events) == From(cfg, Init(), events)
  {
    if events != [] { RunIsFrom(cfg, events[..|events| - 1]); }
  }

  lemma StepKeeps(cfg: Config, s: System, e: Event)
    requires Lossless(cfg.format) && Inv(cfg, s)
    ensures Inv(cfg, Step(cfg, s, e))
  {
    match e
    case Begin(c, caller, force, ring) => BeginKeeps(cfg, s, c, caller, force, ring);
    case Plan(c, head) => PlanKeeps(cfg, s, c, head);
    case Send(c, fault) => SendKeeps(cfg, s, c, fault);
  }

  lemma {:induction false} FromKeeps(cfg: Config, s: System, events: seq<Event>)
    requires Lossless(cfg.format) && Inv(cfg, s)
    ensures Inv(cfg, From(cfg, s, events)) && s.commits <= From(cfg, s, events).commits
  {
    if events != [] {
      FromKeeps(cfg, s, events[..|events| - 1]);
      StepKeeps(cfg, From(cfg, s, events[..|events| - 1]), events[|events| - 1]);
    }
  }

  /** Events of other clients leave a client alone. */
  lemma {:induction false} OthersLeaveAlone(cfg: Config, s: System, c: nat, events: seq<Event>)
    requires forall e :: e in events ==> e.c != c
    ensures ClientAt(From(cfg, s, events), c) == ClientAt(s, c)
  {
    if events != [] { OthersLeaveAlone(cfg, s, c, events[..|events| - 1]); }
  }

  // ---- One attempt --------------------------------------------------------------------------------

  /** `head` is what the push may plan now: the tip opens with its keys, the merge succeeds,
      and the head carries it on top of the tip. */
  predicate Plans(cfg: Config, s: System, push: Push, head: RefHead) {
    var refs := TipRefs(cfg, s, push.ring);
    && refs.Some? && TipOf(cfg.format, s.disk).Ok?
    && var merged := Merge(push.baseline, push.caller, refs.value, push.force);
    && merged.Ok? && IsPlan(cfg, TipOf(cfg.format, s.disk).value, merged.value, push, head)
  }

  lemma PlannedSends(cfg: Config, s: System, c: nat, push: Push, attempt: nat, head: RefHead)
    requires Lossless(cfg.format) && Inv(cfg, s) && ClientAt(s, c) == Planning(push, attempt)
    requires Plans(cfg, s, push, head)
    ensures var t := Step(cfg, s, Plan(c, head));
            && Inv(cfg, t) && t.commits == s.commits && t.disk == s.disk
            && ClientAt(t, c) == Sending(push, attempt, |s.commits|, head)
  {
    PlanKeeps(cfg, s, c, head);
  }

  /** Heads of the log have distinct hashes, none of them the zero marker. */
  ghost predicate NoTwins(cfg: Config, s: System) {
    var heads := Heads(s.commits);
    NoCollision(cfg.format.hash, SetOf(heads)) && forall h :: h in heads ==> cfg.format.hash(h) != ZERO_HASH
  }

  lemma OvertakenConflicts(cfg: Config, s: System, push: Push, attempt: nat, readPos: nat, head: RefHead)
    requires Lossless(cfg.format) && Inv(cfg, s) && NoTwins(cfg, s)
    requires ClientOk(cfg, s.commits, s.acked, Sending(push, attempt, readPos, head)) && readPos < |s.commits|
    ensures var (disk, reply) := Append(cfg.format, s.disk, head, NoFault);
            reply.Err? && reply.error.CasConflict?
  {
    var heads := Heads(s.commits);
    var served :| Represents(cfg.format, s.disk, heads, served);
    AppendKeepsLog(cfg.format, s.disk, heads, served, head, NoFault);
    var tip := heads[|heads| - 1];
    assert tip in heads && tip in SetOf(heads) && tip == served[|heads| - 1] && tip.seqNo == |heads|;
    if readPos > 0 {
      var seen := heads[readPos - 1];
      assert seen in heads && seen in SetOf(heads) && seen == served[readPos - 1] && seen.seqNo == readPos;
      assert LastOf(heads[..readPos]) == Some(seen);
    }
  }

  lemma OvertakenRetries(cfg: Config, s: System, c: nat, push: Push, attempt: nat, readPos: nat, head: RefHead)
    requires Lossless(cfg.format) && Inv(cfg, s) && NoTwins(cfg, s)
    requires ClientAt(s, c) == Sending(push, attempt, readPos, head) && readPos < |s.commits|
    ensures var t := Step(cfg, s, Send(c, NoFault));
            && Inv(cfg, t) && t.commits == s.commits && t.disk == s.disk
            && ClientAt(t, c) == if attempt < cfg.maxRetries then Planning(push, attempt + 1) else Failed
  {
    SendKeeps(cfg, s, c, NoFault);
    OvertakenConflicts(cfg, s, push, attempt, readPos, head);
    ConflictLeavesDisk(cfg.format, s.disk, head);
  }

  lemma ConflictLeavesDisk(f: HeadFormat, d: Disk, head: RefHead)
    ensures var (disk, reply) := Append(f, d, head, NoFault);
            reply.Err? ==> disk == d
  {
  }

  /** An attempt that cannot be planned ends the push: the tip does not open with its keys, or the
      merge is raced. */
  lemma UnplannableFails(cfg: Config, s: System, c: nat, push: Push, attempt: nat, head: RefHead)
    requires ClientAt(s, c) == Planning(push, attempt)
    requires var refs := TipRefs(cfg, s, push.ring);
             refs.Some? ==> Merge(push.baseline, push.caller, refs.value, push.force).Err?
    ensures var t := Step(cfg, s, Plan(c, head));
            ClientAt(t, c) == Failed && t.disk == s.disk && t.commits == s.commits && t.acked == s.acked
  {
  }

  /** A fault while the head is appended ends the push too, retries left or not: nothing is
      acknowledged, and the head is committed exactly when only the reply was lost. */
  lemma FaultedSendFails(cfg: Config, s: System, c: nat, push: Push, attempt: nat, head: RefHead, fault: Fault)
    requires Lossless(cfg.format) && Inv(cfg, s) && fault != NoFault
    requires ClientAt(s, c) == Sending(push, attempt, |s.commits|, head)
    ensures var t := Step(cfg, s, Send(c, fault));
            && ClientAt(t, c) == Failed && t.acked == s.acked
            && t.commits == if fault == LoseReply then s.commits + [Commit(head, push)] else s.commits
  {
    var heads := Heads(s.commits);
    var served :| Represents(cfg.format, s.disk, heads, served);
    assert ClientOk(cfg, s.commits, s.acked, Sending(push, attempt, |s.commits|, head));
    assert heads[..|s.commits|] == heads;
    AppendKeepsLog(cfg.format, s.disk, heads, served, head, fault);
  }

  // ---- A schedule of attempts -----------------------------------------------------------------------

  /** One lost race: the head planned, and what other clients did before it was sent. */
  datatype Race = Race(head: RefHead, others: seq<Event>)

  function RaceEvents(c: nat, r: Race): seq<Event> { [Plan(c, r.head)] + r.others + [Send(c, NoFault)] }

  function RacesEvents(c: nat, races: seq<Race>): seq<Event> {
    if races == [] then [] else RacesEvents(c, races[..|races| - 1]) + RaceEvents(c, races[|races| - 1])
  }

  /** From `s` on: each race starts from a tip on which the push can plan, and others commit
      something before it is over. */
  ghost predicate LosesRaces(cfg: Config, s: System, c: nat, push: Push, races: seq<Race>) {
    races == [] ||
    var r := races[|races| - 1];
    var t := From(cfg, s, RacesEvents(c, races[..|races| - 1]));
    var u := From(cfg, t, [Plan(c, r.head)] + r.others);
    && LosesRaces(cfg, s, c, push, races[..|races| - 1])
    && Plans(cfg, t, push, r.head) && (forall e :: e in r.others ==> e.c != c)
    && |t.commits| < |u.commits| && NoTwins(cfg, u)
  }

  lemma RaceLost(cfg: Config, s: System, c: nat, push: Push, attempt: nat, r: Race)
    requires Lossless(cfg.format) && Inv(cfg, s) && ClientAt(s, c) == Planning(push, attempt)
    requires Plans(cfg, s, push, r.head) && forall e :: e in r.others ==> e.c != c
    requires var u := From(cfg, s, [Plan(c, r.head)] + r.others);
             |s.commits| < |u.commits| && NoTwins(cfg, u)
    ensures var t := From(cfg, s, RaceEvents(c, r));
            && Inv(cfg, t)
            && ClientAt(t, c) == if attempt < cfg.maxRetries then Planning(push, attempt + 1) else Failed
  {
    var plan := [Plan(c, r.head)];
    var planned := Step(cfg, s, Plan(c, r.head));
    PlannedSends(cfg, s, c, push, attempt, r.head);
    assert plan[..0] == [] && From(cfg, s, plan[..0]) == s && From(cfg, s, plan) == planned;
    FromSum(cfg, s, plan, r.others);
    var u := From(cfg, planned, r.others);
    FromKeeps(cfg, planned, r.others);
    OthersLeaveAlone(cfg, planned, c, r.others);
    OvertakenRetries(cfg, u, c, push, attempt, |s.commits|, r.head);
    assert RaceEvents(c, r)[..|RaceEvents(c, r)| - 1] == plan + r.others;
  }

  lemma {:induction false} RacesLost(cfg: Config, s: System, c: nat, push: Push, races: seq<Race>)
    requires Lossless(cfg.format) && Inv(cfg, s) && ClientAt(s, c) == Planning(push, 0)
    requires LosesRaces(cfg, s, c, push, races) && |races| <= cfg.maxRetries + 1
    ensures var t := From(cfg, s, RacesEvents(c, races));
            && Inv(cfg, t)
            && ClientAt(t, c) == if |races| <= cfg.maxRetries then Planning(push, |races|) else Failed
  {
    if races != [] {
      var n := |races| - 1;
      var front := races[..n];
      RacesLost(cfg, s, c, push, front);
      var t := From(cfg, s, RacesEvents(c, front));
      RaceLost(cfg, t, c, push, n, races[n]);
      FromSum(cfg, s, RacesEvents(c, front), RaceEvents(c, races[n]));
    }
  }

  /** The state just after a push began on a store whose tip its keys open. */
  lemma Begun(cfg: Config, s: System, c: nat, caller: Refs, force: bool, ring: Ring) returns (push: Push)
    requires Lossless(cfg.format) && Inv(cfg, s) && ring.Valid() && TipRefs(cfg, s, ring).Some?
    ensures push == Push(TipRefs(cfg, s, ring).value, |s.commits|, caller, force, ring)
    ensures var t := Step(cfg, s, Begin(c, caller, force, ring));
            Inv(cfg, t) && t.commits == s.commits && t.disk == s.disk && ClientAt(t, c) == Planning(push, 0)
  {
    push := Push(TipRefs(cfg, s, ring).value, |s.commits|, caller, force, ring);
    BeginKeeps(cfg, s, c, caller, force, ring);
  }

  lemma UndisturbedSend(cfg: Config, s: System, c: nat, push: Push, attempt: nat, head: RefHead)
    requires Lossless(cfg.format) && Inv(cfg, s) && ClientAt(s, c) == Planning(push, attempt)
    requires Plans(cfg, s, push, head)
    ensures var t := From(cfg, s, [Plan(c, head), Send(c, NoFault)]);
            && ClientAt(t, c) == Done(head) && t.commits == s.commits + [Commit(head, push)] && head in t.acked
  {
    var planned := Step(cfg, s, Plan(c, head));
    PlannedSends(cfg, s, c, push, attempt, head);
    SendOutcome(cfg, planned, c, NoFault);
    var both := [Plan(c, head), Send(c, NoFault)];
    assert both[..1] == [Plan(c, head)] && both[..1][..0] == [];
    assert From(cfg, s, both[..1][..0]) == s && From(cfg, s, both[..1]) == planned;
  }

  /** Progress. A client begins a push in any reachable state, loses at most `maxRetries` races
      against commits of others, and is then left undisturbed once. If each tip it reads opens
      with its keys and each merge succeeds, the push is accepted: the client is done, and its
      head is the last commit. */
  lemma PushSucceeds(cfg: Config, before: seq<Event>, c: nat, caller: Refs, force: bool, ring: Ring, races: seq<Race>,
                     head: RefHead)
    requires Lossless(cfg.format) && ring.Valid() && TipRefs(cfg, Run(cfg, before), ring).Some?
    requires |races| <= cfg.maxRetries
    requires var begun := Run(cfg, before + [Begin(c, caller, force, ring)]);
             var push := PushOf(cfg, before, caller, force, ring);
             && LosesRaces(cfg, begun, c, push, races)
             && Plans(cfg, From(cfg, begun, RacesEvents(c, races)), push, head)
    ensures var s := Run(cfg, before + [Begin(c, caller, force, ring)] + RacesEvents(c, races)
                              + [Plan(c, head), Send(c, NoFault)]);
            && ClientAt(s, c) == Done(head) && head in s.acked
            && s.commits != [] && s.commits[|s.commits| - 1].head == head
  {
    var start, last := before + [Begin(c, caller, force, ring)], [Plan(c, head), Send(c, NoFault)];
    var begun, push := Run(cfg, start), PushOf(cfg, before, caller, force, ring);
    BeginsPlanning(cfg, before, c, caller, force, ring);
    RacesLost(cfg, begun, c, push, races);
    var t := From(cfg, begun, RacesEvents(c, races));
    UndisturbedSend(cfg, t, c, push, |races|, head);
    RunIsFrom(cfg, start);
    RunIsFrom(cfg, start + RacesEvents(c, races) + last);
    FromSum(cfg, Init(), start, RacesEvents(c, races));
    FromSum(cfg, Init(), start + RacesEvents(c, races), last);
  }

  /** The bound is exact: one more lost race and the push is given up. */
  lemma PushGivesUp(cfg: Config, before: seq<Event>, c: nat, caller: Refs, force: bool, ring: Ring, races: seq<Race>)
    requires Lossless(cfg.format) && ring.Valid() && TipRefs(cfg, Run(cfg, before), ring).Some?
    requires |races| == cfg.maxRetries + 1
    requires LosesRaces(cfg, Run(cfg, before + [Begin(c, caller, force, ring)]), c,
                        PushOf(cfg, before, caller, force, ring), races)
    ensures ClientAt(Run(cfg, before + [Begin(c, caller, force, ring)] + RacesEvents(c, races)), c) == Failed
  {
    var start := before + [Begin(c, caller, force, ring)];
    BeginsPlanning(cfg, before, c, caller, force, ring);
    RacesLost(cfg, Run(cfg, start), c, PushOf(cfg, before, caller, force, ring), races);
    RunIsFrom(cfg, start);
    RunIsFrom(cfg, start + RacesEvents(c, races));
    FromSum(cfg, Init(), start, RacesEvents(c, races));
  }

  /** The push that starts after the events `before`. */
  function PushOf(cfg: Config, before: seq<Event>, caller: Refs, force: bool, ring: Ring): Push
    requires TipRefs(cfg, Run(cfg, before), ring).Some?
  {
    var s := Run(cfg, before);
    Push(TipRefs(cfg, s, ring).value, |s.commits|, caller, force, ring)
  }

  lemma BeginsPlanning(cfg: Config, before: seq<Event>, c: nat, caller: Refs, force: bool, ring: Ring)
    requires Lossless(cfg.format) && ring.Valid() && TipRefs(cfg, Run(cfg, before), ring).Some?
    ensures var s := Run(cfg, before + [Begin(c, caller, force, ring)]);
            Inv(cfg, s) && ClientAt(s, c) == Planning(PushOf(cfg, before, caller, force, ring), 0)
  {
    RunKeeps(cfg, before);
    var push := Begun(cfg, Run(cfg, before), c, caller, force, ring);
    assert (before + [Begin(c, caller, force, ring)])[..|before|] == before;
  }
}
