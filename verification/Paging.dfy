/** The bounded head listing of the server and the client loop that pages through it. */
module Paging {
  import opened Bytes
  import opened Primitives
  import opened RefHeads
  import opened HeadFormats
  import opened HeadStore
  import opened CrashSafety

  const PAGE: nat := 500
  const MAX_HEADS_PAGE: nat := 1000

  function Clamp(limit: nat): (n: nat)
    ensures 1 <= n <= MAX_HEADS_PAGE
  {
    if limit < 1 then 1 else if limit > MAX_HEADS_PAGE then MAX_HEADS_PAGE else limit
  }

  function Truncated(heads: seq<RefHead>, n: nat): seq<RefHead> {
    if |heads| <= n then heads else heads[..n]
  }

  /** The page an honest server returns for a log. */
  function Page(log: seq<RefHead>, after: nat, limit: nat): seq<RefHead> {
    Truncated(HeadsAfter(log, after), Clamp(limit))
  }

  /** A page begins just above the cursor and is as long as the log and the limit allow; a limit
      below one counts as one, and one above a thousand as a thousand. */
  lemma PageIs(log: seq<RefHead>, after: nat, limit: nat)
    ensures var page, most := Page(log, after, limit), if limit == 0 then 1 else Min(limit, 1000);
            && |page| == Max(Min(|log| - after, most), 0)
            && forall i :: 0 <= i < |page| ==> page[i] == log[after + i]
  {
  }

  /** The server route: list, then truncate to the clamped limit. It fails exactly when some log
      file above the cursor does not decode, which none of a represented log does. */
  method HeadsSinceRoute(store: LocalStore, after: u64, limit: nat) returns (r: Result<seq<RefHead>, StoreError>)
    ensures r.Err? <==> exists s :: s in Selected(store.logFiles, after) && store.format.decode(store.logFiles[s]).None?
    ensures r.Ok? ==> |r.value| <= Clamp(limit)
    ensures forall chain, served :: Lossless(store.format) && Represents(store.format, store.Files(), chain, served) ==>
              r == Ok(Page(served, after, limit))
  {
    r := store.Since(after);
    forall chain, served | Lossless(store.format) && Represents(store.format, store.Files(), chain, served)
      ensures r == Ok(HeadsAfter(served, after))
    {
      ListsAllServed(store.format, store.Files(), chain, served, after, r);
    }
    if r.Ok? {
      var heads := r.value;
      if |heads| > Clamp(limit) { heads := heads[..Clamp(limit)]; }
      r := Ok(heads);
    }
  }

  lemma ListsAllServed(f: HeadFormat, d: Disk, chain: seq<RefHead>, served: seq<RefHead>, after: u64,
                       r: Result<seq<RefHead>, StoreError>)
    requires Lossless(f) && Represents(f, d, chain, served)
    requires r.Err? <==> exists s :: s in Selected(d.log, after) && f.decode(d.log[s]).None?
    requires r.Ok? ==> exists order :: Lists(f, order, Selected(d.log, after), d.log)
                                       && r.value == SortBySeq(DecodeAll(f, order, d.log))
    ensures r == Ok(HeadsAfter(served, after))
  {
    forall s | s in Selected(d.log, after)
      ensures f.decode(d.log[s]).Some?
    {
      ListingDecodes(f, d, chain, served, s);
    }
    var order :| Lists(f, order, Selected(d.log, after), d.log) && r.value == SortBySeq(DecodeAll(f, order, d.log));
    ListingIsServedSuffix(f, d, chain, served, after, order);
  }

  // ---- The client loop -----------------------------------------------------------

  ghost predicate Numbered(log: seq<RefHead>) {
    forall i :: 0 <= i < |log| ==> log[i].seqNo == i + 1
  }

  /** The log the `k`-th request sees; it may grow from one request to the next. */
  ghost predicate Growing(logAt: nat -> seq<RefHead>) {
    && (forall k: nat :: Numbered(logAt(k)))
    && (forall k: nat :: logAt(k) <= logAt(k + 1))
  }

  ghost predicate Serves(respond: (nat, u64) -> seq<RefHead>, logAt: nat -> seq<RefHead>) {
    forall k: nat, cursor: u64 :: respond(k, cursor) == Page(logAt(k), cursor, PAGE)
  }

  /** What the loop has gathered after `requests` answers: the log the last one saw, from
      above `after` up to the cursor. */
  ghost predicate Gathered(logAt: nat -> seq<RefHead>, requests: nat, after: u64, cursor: u64, all: seq<RefHead>) {
    if requests == 0 then cursor == after && all == []
    else after <= cursor <= |logAt(requests - 1)| && all == logAt(requests - 1)[after..cursor]
  }

  /** The log may also have its last head replaced between requests, but never gets shorter. */
  ghost predicate Lengthening(logAt: nat -> seq<RefHead>) {
    && (forall k: nat :: Numbered(logAt(k)))
    && (forall k: nat :: |logAt(k)| <= |logAt(k + 1)|)
  }

  /** Then the cursor is as far above `after` as heads were gathered, and the last one gathered
      is the last one that the latest answer showed. */
  ghost predicate Trailing(logAt: nat -> seq<RefHead>, requests: nat, after: u64, cursor: u64, all: seq<RefHead>) {
    if requests == 0 then cursor == after && all == []
    else
      && all != [] && |all| == cursor - after && cursor <= |logAt(requests - 1)|
      && all[|all| - 1] == logAt(requests - 1)[cursor - 1]
  }

  /** How such a listing ends: with the last head of the log that one of the last two requests
      saw, or empty because nothing was above `after`. */
  ghost predicate EndsAsListed(logAt: nat -> seq<RefHead>, requests: nat, after: u64, all: seq<RefHead>) {
    if all == [] then requests > 0 && |logAt(requests - 1)| <= after
    else exists k: nat :: k < requests <= k + 2 && EndsWith(logAt(k), after, all)
  }

  ghost predicate EndsWith(log: seq<RefHead>, after: u64, all: seq<RefHead>)
    requires all != []
  {
    |log| == after + |all| && log[|log| - 1] == all[|all| - 1]
  }

  /** Terminates against any server, since the cursor grows below 2^64. Against an honest
      one it returns every head above `after` in the log of the last request. */
  method HeadsSince(respond: (nat, u64) -> seq<RefHead>, after: u64, ghost logAt: nat -> seq<RefHead>)
    returns (all: seq<RefHead>, requests: nat)
    ensures requests > 0
    ensures Listing(respond, logAt, requests, after, all)
  {
    all, requests := [], 0;
    var cursor: u64 := after;
    while true
      invariant OnTrack(respond, logAt, requests, after, cursor, all)
      decreases TWO_TO_64 - cursor
    {
      var body := respond(requests, cursor);
      StaysOnTrack(respond, logAt, requests, after, cursor, all, body);
      requests := requests + 1;
      all := all + body;
      if body == [] || body[|body| - 1].seqNo <= cursor { return; }
      cursor := body[|body| - 1].seqNo;
      if |body| < PAGE { return; }
    }
  }

  /** What the loop maintains about either kind of honest server. */
  ghost predicate OnTrack(respond: (nat, u64) -> seq<RefHead>, logAt: nat -> seq<RefHead>, requests: nat,
                          after: u64, cursor: u64, all: seq<RefHead>)
  {
    && (Serves(respond, logAt) && Growing(logAt) ==> Gathered(logAt, requests, after, cursor, all))
    && (Serves(respond, logAt) && Lengthening(logAt) ==> Trailing(logAt, requests, after, cursor, all))
  }

  /** What it promises when it stops. */
  ghost predicate Listing(respond: (nat, u64) -> seq<RefHead>, logAt: nat -> seq<RefHead>, requests: nat,
                          after: u64, all: seq<RefHead>)
    requires requests > 0
  {
    && (Serves(respond, logAt) && Growing(logAt) ==> all == HeadsAfter(logAt(requests - 1), after))
    && (Serves(respond, logAt) && Lengthening(logAt) ==> EndsAsListed(logAt, requests, after, all))
  }

  lemma StaysOnTrack(respond: (nat, u64) -> seq<RefHead>, logAt: nat -> seq<RefHead>, k: nat, after: u64, cursor: u64,
                     all: seq<RefHead>, page: seq<RefHead>)
    requires OnTrack(respond, logAt, k, after, cursor, all) && page == respond(k, cursor)
    ensures page == [] || page[|page| - 1].seqNo <= cursor || |page| < PAGE ==>
              Listing(respond, logAt, k + 1, after, all + page)
    ensures page != [] ==> OnTrack(respond, logAt, k + 1, after, page[|page| - 1].seqNo, all + page)
  {
    if Serves(respond, logAt) && Growing(logAt) { PageExtends(logAt, k, after, cursor, all); }
    if Serves(respond, logAt) && Lengthening(logAt) { TrailExtends(logAt, k, after, cursor, all); }
  }

  lemma TrailExtends(logAt: nat -> seq<RefHead>, k: nat, after: u64, cursor: u64, all: seq<RefHead>)
    requires Lengthening(logAt) && Trailing(logAt, k, after, cursor, all)
    ensures var page := Page(logAt(k), cursor, PAGE);
            && (page == [] ==> EndsAsListed(logAt, k + 1, after, all + page))
            && (page != [] ==> var last := page[|page| - 1].seqNo;
                               && last > cursor && Trailing(logAt, k + 1, after, last, all + page)
                               && (|page| < PAGE ==> EndsAsListed(logAt, k + 1, after, all + page)))
  {
    var log := logAt(k);
    var page := Page(log, cursor, PAGE);
    assert Numbered(log);
    if page == [] {
      assert all + page == all;
      if k > 0 {
        assert |logAt(k - 1)| <= |logAt(k - 1 + 1)|;
        assert EndsWith(logAt(k - 1), after, all);
      }
    } else {
      assert page == log[cursor..cursor + |page|];
      assert page[|page| - 1] == log[cursor + |page| - 1];
      assert (all + page)[|all + page| - 1] == page[|page| - 1];
      if |page| < PAGE { assert EndsWith(log, after, all + page); }
    }
  }

  lemma GrownSlice(logAt: nat -> seq<RefHead>, k: nat, after: u64, cursor: u64, all: seq<RefHead>)
    requires Growing(logAt) && k > 0 && Gathered(logAt, k, after, cursor, all)
    ensures after <= cursor <= |logAt(k)| && all == logAt(k)[after..cursor]
  {
    assert logAt(k - 1) <= logAt(k - 1 + 1);
  }

  lemma PageExtends(logAt: nat -> seq<RefHead>, k: nat, after: u64, cursor: u64, all: seq<RefHead>)
    requires Growing(logAt) && Gathered(logAt, k, after, cursor, all)
    ensures var log := logAt(k);
            var page := Page(log, cursor, PAGE);
            && (page == [] ==> all + page == HeadsAfter(log, after))
            && (page != [] ==> var last := page[|page| - 1].seqNo;
                               && last > cursor && Gathered(logAt, k + 1, after, last, all + page)
                               && (|page| < PAGE ==> all + page == HeadsAfter(log, after)))
  {
    var log := logAt(k);
    var page := Page(log, cursor, PAGE);
    assert Numbered(log);
    if k > 0 { GrownSlice(logAt, k, after, cursor, all); }
    if page != [] {
      assert page == log[cursor..cursor + |page|];
      assert page[|page| - 1] == log[cursor + |page| - 1];
      assert all + page == log[after..cursor + |page|];
    }
  }
}
