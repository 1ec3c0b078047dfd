/** What the head log keeps when an append may stop between its two file writes. */
module CrashSafety {
  import opened Bytes
  import opened Primitives
  import opened RefHeads
  import opened HeadFormats
  import opened HeadStore

  /** Files that represent the committed `chain`. `served` is what a listing returns:
      the chain, or the chain and one further head whose tip write never happened. */
  ghost predicate Represents(f: HeadFormat, d: Disk, chain: seq<RefHead>, served: seq<RefHead>) {
    && chain <= served && |served| <= |chain| + 1
    && Chained(f.hash, served)
    && d.tip == (if chain == [] then None else Some(f.encode(chain[|chain| - 1])))
    && (forall s :: s in d.log <==> 1 <= s <= |served|)
    && (forall i :: 0 <= i < |served| ==> d.log[served[i].seqNo] == f.encode(served[i]))
  }

  lemma TipIsLast(f: HeadFormat, d: Disk, chain: seq<RefHead>, served: seq<RefHead>)
    requires Lossless(f) && Represents(f, d, chain, served)
    ensures TipOf(f, d) == Ok(LastOf(chain))
    ensures NextSeq(LastOf(chain)) == |chain| + 1
  {
    if chain != [] {
      assert f.decode(f.encode(chain[|chain| - 1])).Some?;
      assert chain[|chain| - 1] == served[|chain| - 1];
    }
  }

  /** The one head an append can put next. */
  predicate Eligible(f: HeadFormat, chain: seq<RefHead>, head: RefHead) {
    head.prev == HashOf(f.hash, LastOf(chain)) && head.seqNo == |chain| + 1
  }

  predicate Commits(f: HeadFormat, chain: seq<RefHead>, head: RefHead, fault: Fault) {
    Eligible(f, chain, head) && (fault == NoFault || fault == LoseReply)
  }

  function ServedAfter(chain: seq<RefHead>, served: seq<RefHead>, head: RefHead, fault: Fault): seq<RefHead> {
    if fault == FailLogWrite then served else chain + [head]
  }

  lemma ChainedExtends(hash: HashFn, served: seq<RefHead>, chain: seq<RefHead>, head: RefHead)
    requires Chained(hash, served) && chain <= served
    requires head.prev == HashOf(hash, LastOf(chain)) && head.seqNo == |chain| + 1
    ensures Chained(hash, chain + [head])
  {
    var next := chain + [head];
    assert forall i :: 0 <= i < |chain| ==> next[i] == served[i];
    forall i | 0 <= i < |next|
      ensures next[i].prev == PrevHash(hash, next, i)
    {
      if i < |chain| {
        assert served[i].prev == PrevHash(hash, served, i);
      }
    }
  }

  /** An append is refused outright, or writes exactly the next log entry: whatever the
      fault, the files represent the same chain, or that chain and the new head. */
  lemma AppendKeepsLog(f: HeadFormat, d: Disk, chain: seq<RefHead>, served: seq<RefHead>,
                       head: RefHead, fault: Fault)
    requires Lossless(f) && Represents(f, d, chain, served)
    ensures var (d', r) := Append(f, d, head, fault);
            && (!Eligible(f, chain, head) ==> d' == d && r.Err? && r.error != Io)
            && (Eligible(f, chain, head) ==>
                  Represents(f, d', if Commits(f, chain, head, fault) then chain + [head] else chain,
                             ServedAfter(chain, served, head, fault)))
            && (r.Ok? <==> Eligible(f, chain, head) && fault == NoFault)
            && (r.Ok? ==> r.value == f.hash(head))
            && (r.Err? && r.error.CasConflict? <==> head.prev != HashOf(f.hash, LastOf(chain)))
  {
    TipIsLast(f, d, chain, served);
    if Eligible(f, chain, head) && fault != FailLogWrite {
      var next := chain + [head];
      ChainedExtends(f.hash, served, chain, head);
      assert chain == served[..|chain|];
      var (d', _) := Append(f, d, head, fault);
      assert d'.log == d.log[head.seqNo := f.encode(head)];
      forall i | 0 <= i < |next|
        ensures d'.log[next[i].seqNo] == f.encode(next[i])
      {
        if i < |chain| { assert next[i] == served[i]; }
      }
    }
  }

  /** The tip that the files show, and what a head has to name and be numbered to follow it. */
  ghost predicate Follows(f: HeadFormat, d: Disk, head: RefHead) {
    if d.tip.None? then head.prev == Zeros(64) && head.seqNo == 1
    else
      var tip := f.decode(d.tip.value);
      tip.Some? && head.prev == f.hash(tip.value) && head.seqNo == tip.value.seqNo + 1
  }

  /** From any files at all, sound or not: the head is accepted if and only if it follows the tip
      and nothing goes wrong, its log file is written if and only if it follows and the first
      write succeeds, the tip if and only if both do, and nothing else ever changes. A tip that
      does not decode refuses every head. */
  lemma AppendedIff(f: HeadFormat, d: Disk, head: RefHead, fault: Fault)
    ensures var (d', r) := Append(f, d, head, fault);
            var logged := Follows(f, d, head) && fault != FailLogWrite;
            && (r == Ok(f.hash(head)) <==> Follows(f, d, head) && fault == NoFault)
            && (r.Ok? ==> r.value == f.hash(head))
            && d'.log == (if logged then d.log[head.seqNo := f.encode(head)] else d.log)
            && d'.tip == (if logged && fault != FailTipWrite then Some(f.encode(head)) else d.tip)
            && (d.tip.Some? && f.decode(d.tip.value).None? ==> r == Err(Corrupt))
  {
    assert ZERO_HASH == Zeros(64);
  }

  /** A head at or below the tip is final: every later append leaves its log entry. */
  lemma CommittedIsFinal(f: HeadFormat, d: Disk, chain: seq<RefHead>, served: seq<RefHead>,
                         head: RefHead, fault: Fault, i: nat)
    requires Lossless(f) && Represents(f, d, chain, served) && i < |chain|
    ensures var d' := Append(f, d, head, fault).0;
            var n := chain[i].seqNo;
            n in d.log && n in d'.log && d'.log[n] == d.log[n] == f.encode(chain[i])
  {
    assert chain[i] == served[i];
    TipIsLast(f, d, chain, served);
  }

  /** The head above the tip is not: any eligible head replaces it. */
  lemma UncommittedIsReplaceable(f: HeadFormat, d: Disk, chain: seq<RefHead>, served: seq<RefHead>,
                                 other: RefHead)
    requires Lossless(f) && Represents(f, d, chain, served) && |served| == |chain| + 1
    requires Eligible(f, chain, other) && other != served[|chain|]
    ensures var d' := Append(f, d, other, NoFault).0;
            Represents(f, d', chain + [other], chain + [other])
            && d'.log[other.seqNo] != d.log[other.seqNo] == f.encode(served[|chain|])
  {
    AppendKeepsLog(f, d, chain, served, other, NoFault);
    assert f.decode(f.encode(other)) != f.decode(f.encode(served[|chain|]));
    assert (chain + [other])[|chain|] == other;
  }

  /** From an empty store: a first append stops before the tip write, its head is listed, and
      a second append of another head replaces it. */
  lemma CrashedAppendIsReplaced(f: HeadFormat)
    requires Lossless(f)
    ensures var g, h := BareHead(1, ZERO_HASH, false), BareHead(1, ZERO_HASH, true);
            var crashed := Append(f, Disk(None, map[]), g, FailTipWrite).0;
            var replaced := Append(f, crashed, h, NoFault).0;
            && Represents(f, crashed, [], [g]) && crashed.log == map[1 := f.encode(g)]
            && Represents(f, replaced, [h], [h]) && replaced.log == map[1 := f.encode(h)]
            && f.encode(g) != f.encode(h)
  {
    var g, h := BareHead(1, ZERO_HASH, false), BareHead(1, ZERO_HASH, true);
    assert f.decode(f.encode(g)) != f.decode(f.encode(h));
  }

  /** Two heads of one chain never name the same predecessor, unless two heads of that
      chain collide or one of them hashes to the genesis marker. */
  lemma OneSuccessorPerHead(hash: HashFn, chain: seq<RefHead>, i: nat, j: nat)
    requires Chained(hash, chain) && i < j < |chain|
    requires NoCollision(hash, SetOf(chain))
    requires forall h :: h in chain ==> hash(h) != ZERO_HASH
    ensures chain[i].prev != chain[j].prev
  {
    var before := chain[j - 1];
    assert before in chain && before in SetOf(chain) && PrevHash(hash, chain, j) == hash(before);
    if i > 0 {
      var first := chain[i - 1];
      assert first in chain && first in SetOf(chain) && PrevHash(hash, chain, i) == hash(first);
      assert first.seqNo == i && before.seqNo == j;
    } else {
      assert PrevHash(hash, chain, i) == ZERO_HASH;
    }
  }

  // ---- Listing -----------------------------------------------------------------

  function HeadsAfter(log: seq<RefHead>, after: nat): seq<RefHead> {
    if after <= |log| then log[after..] else []
  }

  ghost predicate StrictlySorted(hs: seq<RefHead>) {
    forall i, j :: 0 <= i < j < |hs| ==> hs[i].seqNo < hs[j].seqNo
  }

  ghost predicate DistinctSeqs(hs: seq<RefHead>) {
    forall i, j :: 0 <= i < j < |hs| ==> hs[i].seqNo != hs[j].seqNo
  }

  lemma {:induction false} InsertSorts(h: RefHead, hs: seq<RefHead>)
    requires StrictlySorted(hs) && forall g :: g in hs ==> g.seqNo != h.seqNo
    ensures StrictlySorted(InsertBySeq(h, hs))
  {
    if hs != [] && hs[0].seqNo < h.seqNo {
      InsertSorts(h, hs[1..]);
      var rest := InsertBySeq(h, hs[1..]);
      forall g | g in rest
        ensures hs[0].seqNo < g.seqNo
      {
        assert g in multiset(rest);
      }
    }
  }

  lemma {:induction false} SortSorts(hs: seq<RefHead>)
    requires DistinctSeqs(hs)
    ensures StrictlySorted(SortBySeq(hs))
  {
    if hs != [] {
      var front := hs[..|hs| - 1];
      SortSorts(front);
      forall g | g in SortBySeq(front)
        ensures g.seqNo != hs[|hs| - 1].seqNo
      {
        assert g in multiset(front);
      }
      InsertSorts(hs[|hs| - 1], SortBySeq(front));
    }
  }

  lemma NonemptyHasMember(b: seq<RefHead>)
    ensures b == [] || exists h :: h in b
  {
    if b != [] { assert b[0] in b; }
  }

  /** Strictly sorted sequences with the same members are equal. */
  lemma {:induction false} SortedUnique(a: seq<RefHead>, b: seq<RefHead>)
    requires StrictlySorted(a) && StrictlySorted(b)
    requires forall h :: h in a <==> h in b
    ensures a == b
  {
    if a == [] {
      NonemptyHasMember(b);
    } else {
      assert a[0] in b && b != [] && b[0] in a;
      assert a[0] == b[0];
      forall h
        ensures h in a[1..] <==> h in b[1..]
      {
        assert h in a[1..] <==> h in a && h != a[0];
        assert h in b[1..] <==> h in b && h != b[0];
      }
      SortedUnique(a[1..], b[1..]);
    }
  }

  /** A listing order of the files above `after`, seen as positions of `served`. */
  ghost predicate Enumerates(order: seq<u64>, all: seq<RefHead>, served: seq<RefHead>, after: nat) {
    && |all| == |order|
    && (forall i :: 0 <= i < |order| ==> after < order[i] <= |served| && all[i] == served[order[i] - 1])
    && (forall n :: after < n <= |served| ==> n in order)
    && (forall i, j :: 0 <= i < j < |order| ==> order[i] != order[j])
  }

  lemma ListingEnumerates(f: HeadFormat, d: Disk, chain: seq<RefHead>, served: seq<RefHead>,
                          after: u64, order: seq<u64>)
    requires Lossless(f) && Represents(f, d, chain, served)
    requires Lists(f, order, Selected(d.log, after), d.log)
    ensures Enumerates(order, DecodeAll(f, order, d.log), served, after)
  {
    forall i | 0 <= i < |order|
      ensures after < order[i] <= |served| && f.decode(d.log[order[i]]) == Some(served[order[i] - 1])
    {
      assert order[i] in d.log;
      assert served[order[i] - 1].seqNo == order[i];
    }
  }

  lemma EnumeratesMembers(order: seq<u64>, all: seq<RefHead>, served: seq<RefHead>, after: nat, h: RefHead)
    requires Enumerates(order, all, served, after)
    ensures h in all <==> h in HeadsAfter(served, after)
  {
    var want := HeadsAfter(served, after);
    if h in want {
      var k :| 0 <= k < |want| && want[k] == h;
      assert after < after + k + 1 <= |served| && after + k + 1 in order;
      var i :| 0 <= i < |order| && order[i] == after + k + 1;
      assert all[i] == h;
    }
    if h in all {
      var i :| 0 <= i < |all| && all[i] == h;
      assert h == want[order[i] - 1 - after];
    }
  }

  lemma EnumerationSorts(order: seq<u64>, all: seq<RefHead>, served: seq<RefHead>, after: nat)
    requires Enumerates(order, all, served, after)
    requires forall i :: 0 <= i < |served| ==> served[i].seqNo == i + 1
    ensures SortBySeq(all) == HeadsAfter(served, after)
  {
    SortSorts(all);
    var sorted, want := SortBySeq(all), HeadsAfter(served, after);
    forall h
      ensures h in sorted <==> h in want
    {
      SortKeepsMembers(all, h);
      EnumeratesMembers(order, all, served, after, h);
    }
    SortedUnique(sorted, want);
  }

  lemma SortKeepsMembers(hs: seq<RefHead>, h: RefHead)
    ensures h in SortBySeq(hs) <==> h in hs
  {
    assert h in SortBySeq(hs) <==> h in multiset(hs);
  }

  /** Whatever order the directory is listed in, the result is the served heads above
      the cursor, in sequence order. */
  lemma ListingIsServedSuffix(f: HeadFormat, d: Disk, chain: seq<RefHead>, served: seq<RefHead>,
                              after: u64, order: seq<u64>)
    requires Lossless(f) && Represents(f, d, chain, served)
    requires Lists(f, order, Selected(d.log, after), d.log)
    ensures SortBySeq(DecodeAll(f, order, d.log)) == HeadsAfter(served, after)
  {
    ListingEnumerates(f, d, chain, served, after, order);
    EnumerationSorts(order, DecodeAll(f, order, d.log), served, after);
  }

  /** No file of a represented log fails to decode. */
  lemma ListingDecodes(f: HeadFormat, d: Disk, chain: seq<RefHead>, served: seq<RefHead>, s: u64)
    requires Lossless(f) && Represents(f, d, chain, served) && s in d.log
    ensures f.decode(d.log[s]) == Some(served[s - 1])
  {
    assert served[s - 1].seqNo == s;
  }
}
