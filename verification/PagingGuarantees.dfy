/** What a listing is worth while pushes, crashes and replacements go on between its pages. */
module PagingGuarantees {
  import opened Bytes
  import opened Primitives
  import opened RefHeads
  import opened HeadFormats
  import opened CrashSafety
  import opened FetchVerify
  import opened Paging
  import opened PushProtocol

  /** A list that ends in the last head of a log and descends from somewhere agrees with the
      log going back. */
  lemma {:induction false} AgreesGoingBack(hash: HashFn, log: seq<RefHead>, all: seq<RefHead>, anchor: Digest, k: nat)
    requires Chained(hash, log) && Descends(hash, all, anchor) && k < |all| <= |log|
    requires log[|log| - 1] == all[|all| - 1] && NoCollision(hash, SetOf(all) + SetOf(log))
    ensures all[|all| - 1 - k] == log[|log| - 1 - k]
  {
    if k > 0 {
      AgreesGoingBack(hash, log, all, anchor, k - 1);
      var i, j := |all| - 1 - k, |log| - 1 - k;
      assert all[i + 1].prev == LinkHash(hash, all, anchor, i + 1);
      assert log[j + 1].prev == PrevHash(hash, log, j + 1);
      assert all[i] in SetOf(all) && log[j] in SetOf(log);
    }
  }

  lemma SuffixOrBroken(hash: HashFn, log: seq<RefHead>, after: u64, all: seq<RefHead>, anchor: Digest)
    requires Chained(hash, log) && all != [] && EndsWith(log, after, all)
    requires NoCollision(hash, SetOf(all) + SetOf(log))
    ensures Descends(hash, all, anchor) ==> all == HeadsAfter(log, after)
  {
    if Descends(hash, all, anchor) {
      forall i | 0 <= i < |all|
        ensures all[i] == HeadsAfter(log, after)[i]
      {
        AgreesGoingBack(hash, log, all, anchor, |all| - 1 - i);
      }
    }
  }

  /** `log` is what the store lists after the events of a run. */
  ghost predicate Listed(cfg: Config, events: seq<Event>, log: seq<RefHead>) {
    Represents(cfg.format, Run(cfg, events).disk, Heads(Run(cfg, events).commits), log)
  }

  lemma {:induction false} FilesStay(cfg: Config, events: seq<Event>, more: seq<Event>)
    ensures Run(cfg, events).disk.log.Keys <= Run(cfg, events + more).disk.log.Keys
  {
    if more == [] {
      assert events + more == events;
    } else {
      var shorter := more[..|more| - 1];
      FilesStay(cfg, events, shorter);
      assert (events + more)[..|events + more| - 1] == events + shorter;
    }
  }

  /** The listing of a run never gets shorter, though its last head may change. */
  lemma ListingNeverShrinks(cfg: Config, events: seq<Event>, more: seq<Event>, log: seq<RefHead>, later: seq<RefHead>)
    requires Listed(cfg, events, log) && Listed(cfg, events + more, later)
    ensures |log| <= |later|
  {
    FilesStay(cfg, events, more);
    if log != [] {
      assert log[|log| - 1].seqNo == |log|;
      assert |log| in Run(cfg, events).disk.log;
    }
  }

  /** The `k`-th request of a listing sees the store after the events `at(k)`. */
  ghost predicate Interleaved(cfg: Config, at: nat -> seq<Event>, logAt: nat -> seq<RefHead>) {
    && (forall k: nat :: at(k) <= at(k + 1))
    && (forall k: nat :: Listed(cfg, at(k), logAt(k)))
  }

  lemma InterleavedLengthens(cfg: Config, at: nat -> seq<Event>, logAt: nat -> seq<RefHead>)
    requires Interleaved(cfg, at, logAt)
    ensures Lengthening(logAt)
  {
    forall k: nat
      ensures Numbered(logAt(k)) && |logAt(k)| <= |logAt(k + 1)|
    {
      assert at(k + 1) == at(k) + at(k + 1)[|at(k)|..];
      assert Listed(cfg, at(k), logAt(k)) && Listed(cfg, at(k + 1), logAt(k + 1));
      ListingNeverShrinks(cfg, at(k), at(k + 1)[|at(k)|..], logAt(k), logAt(k + 1));
    }
  }

  /** A listing whose requests are interleaved with any run of pushes and crashes: it is the
      true suffix of the log that one of its last two requests saw, or the reader's chain check
      rejects it, whatever its anchor, unless heads collide. */
  lemma ListingIsSuffixOrBroken(cfg: Config, at: nat -> seq<Event>, logAt: nat -> seq<RefHead>, requests: nat,
                                after: u64, all: seq<RefHead>, anchor: Digest)
    requires Interleaved(cfg, at, logAt) && EndsAsListed(logAt, requests, after, all)
    requires forall k: nat :: k < requests <= k + 2 ==> NoCollision(cfg.format.hash, SetOf(all) + SetOf(logAt(k)))
    ensures Descends(cfg.format.hash, all, anchor) ==>
              exists k: nat :: k < requests <= k + 2 && all == HeadsAfter(logAt(k), after)
  {
    if all == [] {
      assert HeadsAfter(logAt(requests - 1), after) == [];
    } else {
      var k: nat :| k < requests <= k + 2 && EndsWith(logAt(k), after, all);
      assert Listed(cfg, at(k), logAt(k));
      SuffixOrBroken(cfg.format.hash, logAt(k), after, all, anchor);
    }
  }
}
