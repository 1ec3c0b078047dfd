/** Readers against an honest store: what a fetch returns, and when it gets stuck. */
module ReaderGuarantees {
  import opened Bytes
  import opened Primitives
  import opened RefHeads
  import opened HeadFormats
  import opened HeadStore
  import opened CrashSafety
  import opened FetchVerify

  lemma SuffixDescends(hash: HashFn, log: seq<RefHead>, n: nat)
    requires Chained(hash, log) && n <= |log|
    ensures Descends(hash, log[n..], PrevHash(hash, log, n))
  {
    var rest := log[n..];
    forall i | 0 <= i < |rest|
      ensures rest[i].prev == LinkHash(hash, rest, PrevHash(hash, log, n), i)
    {
      assert log[n + i].prev == PrevHash(hash, log, n + i);
    }
  }

  lemma SortedStays(hs: seq<RefHead>)
    requires StrictlySorted(hs)
    ensures SortBySeq(hs) == hs
  {
    SortSorts(hs);
    forall h
      ensures h in SortBySeq(hs) <==> h in hs
    {
      assert h in SortBySeq(hs) <==> h in multiset(hs);
    }
    SortedUnique(SortBySeq(hs), hs);
  }

  ghost predicate Honest(c: Checks, m: Member, log: seq<RefHead>) {
    && Chained(c.hash, log)
    && (forall h :: h in log ==> TagAccepted(c, m, h) && SignatureAccepted(c, m, h))
    && EpochsRise(log)
  }

  ghost predicate EpochsRise(log: seq<RefHead>) {
    forall i, j :: 0 <= i < j < |log| ==> log[i].epoch <= log[j].epoch
  }

  lemma {:induction false} FromEpochIsSuffix(hs: seq<RefHead>, from: u64) returns (n: nat)
    requires EpochsRise(hs)
    ensures n <= |hs| && FromEpoch(hs, from) == hs[n..]
    ensures forall i :: 0 <= i < |hs| ==> (hs[i].epoch >= from <==> n <= i)
  {
    if hs == [] {
      n := 0;
    } else {
      var k := FromEpochIsSuffix(hs[1..], from);
      if hs[0].epoch >= from {
        assert |hs| > 1 ==> hs[1..][0] == hs[1];
        n := 0;
        assert hs == [hs[0]] + hs[1..];
      } else {
        n := k + 1;
        forall i | 0 <= i < |hs|
          ensures hs[i].epoch >= from <==> n <= i
        {
          if i > 0 { assert hs[i] == hs[1..][i - 1]; }
        }
      }
    }
  }

  lemma HonestChain(hash: HashFn, served: seq<RefHead>, n: nat)
    requires Chained(hash, served) && n <= |served|
    ensures ChainAccepted(hash, served[n..], Some(PrevHash(hash, served, n)))
    ensures ChainAccepted(hash, served[n..], None)
  {
    SuffixDescends(hash, served, n);
    if n < |served| {
      SuffixDescends(hash, served, n + 1);
      assert served[n + 1..] == served[n..][1..];
    }
  }

  lemma WindowOf(m: Member, listed: seq<RefHead>, anchor: Option<Digest>) returns (n: nat)
    requires EpochsRise(listed)
    ensures n <= |listed| && Retained(m, listed) == listed[n..]
    ensures n < |listed| <==> listed != [] && m.historyFrom <= listed[|listed| - 1].epoch
    ensures EffectiveAnchor(m, listed, anchor) == if n == 0 then anchor else None
  {
    n := FromEpochIsSuffix(listed, m.historyFrom);
    if n == 0 {
      assert listed[0..] == listed;
    } else {
      assert |listed[n..]| < |listed|;
    }
  }

  lemma AcceptsSome(c: Checks, m: Member, served: seq<RefHead>, heads: seq<RefHead>, anchor: Option<Digest>)
    requires Honest(c, m, served) && ChainAccepted(c.hash, heads, anchor)
    requires forall h :: h in heads ==> h in served
    ensures Accepts(c, m, heads, anchor)
  {
  }

  /** The part of the listing that the member's grant reaches. */
  lemma HonestWindow(m: Member, served: seq<RefHead>, after: u64, anchor: Option<Digest>) returns (n: nat)
    requires EpochsRise(served) && after <= |served|
    ensures after + n <= |served| && Retained(m, HeadsAfter(served, after)) == served[after + n..]
    ensures after < |served| && m.historyFrom <= served[|served| - 1].epoch <==> after + n < |served|
    ensures EffectiveAnchor(m, HeadsAfter(served, after), anchor) == if n == 0 then anchor else None
  {
    var listed := HeadsAfter(served, after);
    assert listed == served[after..];
    n := WindowOf(m, listed, anchor);
    assert after < |served| ==> listed[|listed| - 1] == served[|served| - 1];
    assert listed[n..] == served[after + n..];
  }

  /** The retained part starts at the first head whose epoch the grant covers. */
  lemma RetainedStarts(m: Member, listed: seq<RefHead>, n: nat)
    requires EpochsRise(listed) && n <= |listed| && Retained(m, listed) == listed[n..]
    ensures forall i :: 0 <= i < |listed| ==> (listed[i].epoch >= m.historyFrom <==> n <= i)
  {
    var k := FromEpochIsSuffix(listed, m.historyFrom);
    assert |listed[k..]| == |listed| - k && |listed[n..]| == |listed| - n;
    if m.historyFrom == 0 { assert n == 0; }
  }

  lemma ServedStarts(m: Member, served: seq<RefHead>, after: nat, n: nat)
    requires EpochsRise(served) && after + n <= |served|
    requires Retained(m, HeadsAfter(served, after)) == served[after + n..]
    ensures forall i :: after <= i < |served| ==> (served[i].epoch >= m.historyFrom <==> after + n <= i)
  {
    assert served[after + n..] == served[after..][n..];
    RetainedStarts(m, served[after..], n);
    ShiftedThreshold(m, served, after, n);
  }

  lemma ShiftedThreshold(m: Member, served: seq<RefHead>, after: nat, n: nat)
    requires after <= |served|
    requires forall i :: 0 <= i < |served[after..]| ==> (served[after..][i].epoch >= m.historyFrom <==> n <= i)
    ensures forall i :: after <= i < |served| ==> (served[i].epoch >= m.historyFrom <==> after + n <= i)
  {
    forall i | after <= i < |served|
      ensures served[i].epoch >= m.historyFrom <==> after + n <= i
    {
      assert served[after..][i - after] == served[i];
    }
  }

  lemma HonestRunAccepted(c: Checks, m: Member, served: seq<RefHead>, k: nat, anchor: Option<Digest>)
    requires Honest(c, m, served) && k <= |served|
    requires anchor == None || anchor == Some(PrevHash(c.hash, served, k))
    ensures Accepts(c, m, served[k..], anchor)
  {
    HonestChain(c.hash, served, k);
    AcceptsSome(c, m, served, served[k..], anchor);
  }

  lemma ListingStays(hash: HashFn, served: seq<RefHead>, after: u64)
    requires Chained(hash, served) && after <= |served|
    ensures SortBySeq(HeadsAfter(served, after)) == HeadsAfter(served, after)
  {
    SortedStays(HeadsAfter(served, after));
  }

  lemma FetchVerdict(c: Checks, m: Member, listed: seq<RefHead>, after: u64, anchor: Option<Digest>,
                     tip: Option<RefHead>, rest: seq<RefHead>, trusted: Option<Digest>)
    requires Retained(m, listed) == rest && EffectiveAnchor(m, listed, anchor) == trusted
    requires Accepts(c, m, rest, trusted)
    ensures Fetches(c, m, listed, after, anchor, tip) <==> ReachesTip(rest, after, tip)
  {
  }

  lemma TipReached(served: seq<RefHead>, chain: seq<RefHead>, after: u64, k: nat)
    requires forall i :: 0 <= i < |served| ==> served[i].seqNo == i + 1
    requires chain <= served && k <= |served|
    ensures ReachesTip(served[k..], after, LastOf(chain)) <==> k < |served| || |chain| <= after
  {
    if chain != [] { assert chain[|chain| - 1] == served[|chain| - 1]; }
  }

  lemma RestAccepted(c: Checks, m: Member, chain: seq<RefHead>, served: seq<RefHead>, after: u64, n: nat)
    requires Honest(c, m, served) && chain <= served && after + n <= |served|
    ensures Accepts(c, m, served[after + n..], if n == 0 then Some(PrevHash(c.hash, served, after)) else None)
    ensures ReachesTip(served[after + n..], after, LastOf(chain)) <==> after + n < |served| || |chain| <= after
  {
    HonestRunAccepted(c, m, served, after + n, if n == 0 then Some(PrevHash(c.hash, served, after)) else None);
    TipReached(served, chain, after, after + n);
  }

  /** Does the member's grant reach a head above `after`? */
  predicate GrantReaches(m: Member, served: seq<RefHead>, after: nat) {
    after < |served| && m.historyFrom <= served[|served| - 1].epoch
  }

  /** Fetching from an honest store returns exactly the listed heads the grant reaches: the
      listing from its `n`-th head on, the first whose epoch is not below the grant. It fails
      only for a member whose grant reaches none of them while the tip is ahead: the empty
      answer then looks like a withheld log. `served` may end in one head above the tip,
      left behind by a crash, which the reader accepts too. */
  lemma HonestFetch(c: Checks, m: Member, chain: seq<RefHead>, served: seq<RefHead>, after: u64) returns (n: nat)
    requires Honest(c, m, served) && chain <= served && |chain| + 1 >= |served| && after <= |served|
    ensures after + n <= |served| && Retained(m, HeadsAfter(served, after)) == served[after + n..]
    ensures forall i :: after <= i < |served| ==> (served[i].epoch >= m.historyFrom <==> after + n <= i)
    ensures SortBySeq(HeadsAfter(served, after)) == HeadsAfter(served, after)
    ensures Fetches(c, m, HeadsAfter(served, after), after, Some(PrevHash(c.hash, served, after)), LastOf(chain))
            <==> GrantReaches(m, served, after) || |chain| <= after
  {
    ListingStays(c.hash, served, after);
    var anchor := Some(PrevHash(c.hash, served, after));
    n := HonestWindow(m, served, after, anchor);
    ServedStarts(m, served, after, n);
    RestAccepted(c, m, chain, served, after, n);
    FetchVerdict(c, m, HeadsAfter(served, after), after, anchor, LastOf(chain), served[after + n..],
                 if n == 0 then anchor else None);
  }

  // ---- Fetching in increments --------------------------------------------------------------------

  /** Points at which the log was read: from nothing, never back, to the whole log. */
  ghost predicate Cuts(cuts: seq<nat>, log: seq<RefHead>) {
    && cuts != [] && cuts[0] == 0 && cuts[|cuts| - 1] == |log|
    && forall i, j :: 0 <= i <= j < |cuts| ==> cuts[i] <= cuts[j]
  }

  /** The `i`-th increment succeeds: the log as it stood at the next cut, read from the
      previous one, with the hash of the last head seen as anchor. */
  ghost predicate FetchesIncrement(c: Checks, m: Member, log: seq<RefHead>, from: nat, to: nat)
    requires from <= to <= |log| && |log| < TWO_TO_64
  {
    Fetches(c, m, HeadsAfter(log[..to], from), from, Some(PrevHash(c.hash, log, from)), LastOf(log[..to]))
  }

  /** What the increments up to the `n`-th cut return, one after another. */
  function Gathered(m: Member, log: seq<RefHead>, cuts: seq<nat>, n: nat): seq<RefHead>
    requires n < |cuts| && forall i :: 0 <= i < |cuts| ==> cuts[i] <= |log|
  {
    if n == 0 then []
    else Gathered(m, log, cuts, n - 1) + Retained(m, HeadsAfter(log[..cuts[n]], cuts[n - 1]))
  }

  lemma HonestPrefix(c: Checks, m: Member, log: seq<RefHead>, n: nat)
    requires Honest(c, m, log) && n <= |log|
    ensures Honest(c, m, log[..n])
  {
    ChainedPrefix(c.hash, log, n);
    assert forall h :: h in log[..n] ==> h in log;
  }

  lemma {:induction false} FromEpochOfSum(a: seq<RefHead>, b: seq<RefHead>, from: u64)
    ensures FromEpoch(a + b, from) == FromEpoch(a, from) + FromEpoch(b, from)
  {
    if a == [] {
      assert a + b == b;
    } else {
      assert (a + b)[1..] == a[1..] + b;
      FromEpochOfSum(a[1..], b, from);
    }
  }

  lemma RetainedOfSum(m: Member, a: seq<RefHead>, b: seq<RefHead>)
    ensures Retained(m, a + b) == Retained(m, a) + Retained(m, b)
  {
    FromEpochOfSum(a, b, m.historyFrom);
  }

  lemma IncrementGathers(m: Member, log: seq<RefHead>, from: nat, to: nat)
    requires from <= to <= |log|
    ensures Retained(m, log[..to]) == Retained(m, log[..from]) + Retained(m, HeadsAfter(log[..to], from))
  {
    var piece := HeadsAfter(log[..to], from);
    assert log[..to] == log[..from] + piece;
    RetainedOfSum(m, log[..from], piece);
  }

  lemma {:induction false} GatheredIsPrefix(m: Member, log: seq<RefHead>, cuts: seq<nat>, n: nat)
    requires Cuts(cuts, log) && n < |cuts|
    ensures forall i :: 0 <= i < |cuts| ==> cuts[i] <= |log|
    ensures Gathered(m, log, cuts, n) == Retained(m, log[..cuts[n]])
  {
    assert forall i :: 0 <= i < |cuts| ==> cuts[i] <= cuts[|cuts| - 1];
    if n > 0 {
      GatheredIsPrefix(m, log, cuts, n - 1);
      IncrementGathers(m, log, cuts[n - 1], cuts[n]);
    }
  }

  lemma PrefixEnds(hash: HashFn, m: Member, log: seq<RefHead>, from: nat, to: nat)
    requires from <= to <= |log|
    ensures PrevHash(hash, log[..to], from) == PrevHash(hash, log, from)
    ensures GrantReaches(m, log[..to], from) <==> from < to && m.historyFrom <= log[to - 1].epoch
  {
  }

  /** An increment between any two points, the whole clone among them, is accepted exactly when
      it brings no new head or the grant reaches its last one; so each of them is for a member
      with full history. */
  lemma IncrementFetchedIff(c: Checks, m: Member, log: seq<RefHead>, from: nat, to: nat)
    requires Honest(c, m, log) && from <= to <= |log| < TWO_TO_64
    ensures FetchesIncrement(c, m, log, from, to) <==> from == to || m.historyFrom <= log[to - 1].epoch
  {
    HonestPrefix(c, m, log, to);
    PrefixEnds(c.hash, m, log, from, to);
    PartFetchedIff(c, m, log[..to], from);
  }

  lemma PartFetchedIff(c: Checks, m: Member, part: seq<RefHead>, from: nat)
    requires Honest(c, m, part) && from <= |part| < TWO_TO_64
    ensures Fetches(c, m, HeadsAfter(part, from), from, Some(PrevHash(c.hash, part, from)), LastOf(part))
            <==> GrantReaches(m, part, from) || from == |part|
  {
    var _ := HonestFetch(c, m, part, part, from);
  }

  /** The increment from one cut to the next is accepted. */
  ghost predicate AcceptedAt(c: Checks, m: Member, log: seq<RefHead>, cuts: seq<nat>, i: nat)
    requires i + 1 < |cuts| && |log| < TWO_TO_64
  {
    cuts[i] <= cuts[i + 1] <= |log| && FetchesIncrement(c, m, log, cuts[i], cuts[i + 1])
  }

  /** What the increments return, put together, is what one clone of the whole log returns. */
  lemma IncrementsAreClone(m: Member, log: seq<RefHead>, cuts: seq<nat>)
    requires Cuts(cuts, log)
    ensures forall i :: 0 <= i < |cuts| ==> cuts[i] <= |log|
    ensures Gathered(m, log, cuts, |cuts| - 1) == Retained(m, HeadsAfter(log, 0))
  {
    GatheredIsPrefix(m, log, cuts, |cuts| - 1);
    assert log[..|log|] == log && HeadsAfter(log, 0) == log;
  }

  lemma FullHistoryIncrement(c: Checks, m: Member, log: seq<RefHead>, cuts: seq<nat>, i: nat)
    requires Honest(c, m, log) && |log| < TWO_TO_64 && Cuts(cuts, log) && m.historyFrom == 0 && i + 1 < |cuts|
    ensures AcceptedAt(c, m, log, cuts, i)
  {
    var from, to := cuts[i], cuts[i + 1];
    assert from <= to <= cuts[|cuts| - 1];
    IncrementFetchedIff(c, m, log, from, to);
  }

  /** However an honest log is cut into increments, a member with full history has every one of
      them accepted, and together they are the log that one clone accepts and returns. */
  lemma FullHistoryIncrements(c: Checks, m: Member, log: seq<RefHead>, cuts: seq<nat>)
    requires Honest(c, m, log) && |log| < TWO_TO_64 && Cuts(cuts, log) && m.historyFrom == 0
    ensures forall i {:trigger AcceptedAt(c, m, log, cuts, i)} :: 0 <= i < |cuts| - 1 ==> AcceptedAt(c, m, log, cuts, i)
    ensures forall i :: 0 <= i < |cuts| ==> cuts[i] <= |log|
    ensures Gathered(m, log, cuts, |cuts| - 1) == log && FetchesIncrement(c, m, log, 0, |log|)
  {
    forall i {:trigger AcceptedAt(c, m, log, cuts, i)} | 0 <= i < |cuts| - 1
      ensures AcceptedAt(c, m, log, cuts, i)
    {
      FullHistoryIncrement(c, m, log, cuts, i);
    }
    IncrementsAreClone(m, log, cuts);
    IncrementFetchedIff(c, m, log, 0, |log|);
    assert HeadsAfter(log, 0) == log;
  }

  // ---- A reader whose last head was replaced -----------------------------------------------------------

  /** The rest of a log descends from the reader's last head exactly when there is no rest or
      the log still has that head in its place. */
  lemma RestDescendsIff(hash: HashFn, log: seq<RefHead>, mine: RefHead)
    requires Chained(hash, log) && 0 < mine.seqNo <= |log|
    requires NoCollision(hash, {mine, log[mine.seqNo - 1]})
    ensures Descends(hash, log[mine.seqNo..], hash(mine)) <==> mine.seqNo == |log| || log[mine.seqNo - 1] == mine
  {
    var n := mine.seqNo;
    SuffixDescends(hash, log, n);
    var rest := log[n..];
    if n < |log| {
      assert LinkHash(hash, rest, hash(mine), 0) == hash(mine);
      assert log[n].prev == PrevHash(hash, log, n) && rest[0] == log[n];
    }
  }

  lemma AnchoredAcceptance(c: Checks, m: Member, served: seq<RefHead>, mine: RefHead)
    requires Honest(c, m, served) && 0 < mine.seqNo <= |served|
    requires NoCollision(c.hash, {mine, served[mine.seqNo - 1]})
    ensures Accepts(c, m, served[mine.seqNo..], Some(c.hash(mine)))
            <==> mine.seqNo == |served| || served[mine.seqNo - 1] == mine
  {
    RestDescendsIff(c.hash, served, mine);
  }

  /** The next fetch of a reader whose last accepted head is `mine`. It succeeds exactly when
      it reaches the tip, as for everyone, and one of three things holds: nothing is listed
      above `mine`, its own grant starts above the next head so that the anchor is dropped,
      or the log still has `mine` in its place. */
  lemma IncrementAcceptedIff(c: Checks, m: Member, chain: seq<RefHead>, served: seq<RefHead>, mine: RefHead)
    requires Honest(c, m, served) && chain <= served && |chain| + 1 >= |served| && 0 < mine.seqNo <= |served|
    requires NoCollision(c.hash, {mine, served[mine.seqNo - 1]})
    ensures var n := mine.seqNo;
            Fetches(c, m, HeadsAfter(served, n), n, Some(c.hash(mine)), LastOf(chain))
            <==> && (GrantReaches(m, served, n) || |chain| <= n)
                 && (n == |served| || m.historyFrom > served[n].epoch || served[n - 1] == mine)
  {
    var n := AnchoredWindow(m, chain, served, mine.seqNo, Some(c.hash(mine)));
    AcceptedFrom(c, m, served, mine, n);
    VerdictOf(c, m, HeadsAfter(served, mine.seqNo), mine.seqNo, Some(c.hash(mine)), LastOf(chain),
              served[mine.seqNo + n..], if n == 0 then Some(c.hash(mine)) else None);
  }

  lemma AnchoredWindow(m: Member, chain: seq<RefHead>, served: seq<RefHead>, after: u64, anchor: Option<Digest>)
    returns (n: nat)
    requires EpochsRise(served) && chain <= served && after <= |served|
    requires forall i :: 0 <= i < |served| ==> served[i].seqNo == i + 1
    ensures after + n <= |served| && Retained(m, HeadsAfter(served, after)) == served[after + n..]
    ensures EffectiveAnchor(m, HeadsAfter(served, after), anchor) == if n == 0 then anchor else None
    ensures after < |served| ==> (n > 0 <==> m.historyFrom > served[after].epoch)
    ensures ReachesTip(served[after + n..], after, LastOf(chain))
            <==> GrantReaches(m, served, after) || |chain| <= after
  {
    n := HonestWindow(m, served, after, anchor);
    TipReached(served, chain, after, after + n);
    ServedStarts(m, served, after, n);
    WindowStart(m, served, after, n);
  }

  lemma AcceptedFrom(c: Checks, m: Member, served: seq<RefHead>, mine: RefHead, n: nat)
    requires Honest(c, m, served) && 0 < mine.seqNo && mine.seqNo + n <= |served|
    requires NoCollision(c.hash, {mine, served[mine.seqNo - 1]})
    ensures Accepts(c, m, served[mine.seqNo + n..], if n == 0 then Some(c.hash(mine)) else None)
            <==> n > 0 || mine.seqNo == |served| || served[mine.seqNo - 1] == mine
  {
    if n == 0 {
      AnchoredAcceptance(c, m, served, mine);
    } else {
      HonestRunAccepted(c, m, served, mine.seqNo + n, None);
    }
  }

  lemma WindowStart(m: Member, served: seq<RefHead>, after: nat, n: nat)
    requires after + n <= |served| && EpochsRise(served)
    requires forall i :: after <= i < |served| ==> (served[i].epoch >= m.historyFrom <==> after + n <= i)
    ensures after < |served| ==> (n > 0 <==> m.historyFrom > served[after].epoch)
    ensures after + n < |served| <==> GrantReaches(m, served, after)
  {
  }

  lemma VerdictOf(c: Checks, m: Member, listed: seq<RefHead>, after: u64, anchor: Option<Digest>,
                  tip: Option<RefHead>, rest: seq<RefHead>, trusted: Option<Digest>)
    requires Retained(m, listed) == rest && EffectiveAnchor(m, listed, anchor) == trusted
    ensures Fetches(c, m, listed, after, anchor, tip) <==> Accepts(c, m, rest, trusted) && ReachesTip(rest, after, tip)
  {
  }

  /** A replacement is silent at first. The reader has accepted `mine`, left above the tip by
      a crash. Another head takes its place, and the store then represents a log without
      `mine`; yet the reader's next fetch succeeds with nothing new. */
  lemma ReplacementIsSilent(c: Checks, m: Member, f: HeadFormat, d: Disk, chain: seq<RefHead>, mine: RefHead,
                            other: RefHead)
    requires Lossless(f) && Represents(f, d, chain, chain + [mine])
    requires Eligible(f, chain, other) && other != mine
    ensures var d', log := Append(f, d, other, NoFault).0, chain + [other];
            && Represents(f, d', log, log) && mine !in log[|chain|..]
            && HeadsAfter(log, mine.seqNo) == []
            && Fetches(c, m, [], mine.seqNo, Some(c.hash(mine)), LastOf(log))
  {
    assert (chain + [mine])[|chain|] == mine;
    UncommittedIsReplaceable(f, d, chain, chain + [mine], other);
    assert (chain + [other])[|chain|..] == [other];
    assert Descends(c.hash, [], c.hash(mine));
  }

  /** Once the log has grown past the replacement, a reader with full history is stuck: no
      later fetch is accepted from its anchor. */
  lemma ReplacedReaderIsStuck(c: Checks, m: Member, chain: seq<RefHead>, served: seq<RefHead>, mine: RefHead)
    requires Honest(c, m, served) && chain <= served && |chain| + 1 >= |served| && m.historyFrom == 0
    requires 0 < mine.seqNo < |served| && served[mine.seqNo - 1] != mine
    requires NoCollision(c.hash, {mine, served[mine.seqNo - 1]})
    ensures !Fetches(c, m, HeadsAfter(served, mine.seqNo), mine.seqNo, Some(c.hash(mine)), LastOf(chain))
  {
    IncrementAcceptedIff(c, m, chain, served, mine);
  }

  // ---- A new member ------------------------------------------------------------------------------------

  /** A member that has just joined forward-only at epoch one, before anything was pushed in
      it, is told that the honest log of an older epoch is withheld. */
  lemma NewMemberIsTurnedAway(c: Checks)
    ensures var m, only := Member(1, e => None, 1, []), BareHead(1, ZERO_HASH, false);
            Honest(c, m, [only]) && !Fetches(c, m, [only], 0, Some(ZERO_HASH), Some(only))
  {
    var m, log := Member(1, e => None, 1, []), [BareHead(1, ZERO_HASH, false)];
    assert log[0].prev == PrevHash(c.hash, log, 0);
    assert HeadsAfter(log, 0) == log;
    var _ := HonestFetch(c, m, log, log, 0);
  }
}
