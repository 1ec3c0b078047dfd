/** The server's head log of one repository: two kinds of files, a compare-and-swap
    append that writes the log entry and then the tip, and a directory listing. */
module HeadStore {
  import opened Bytes
  import opened Primitives
  import opened RefHeads
  import opened HeadFormats

  /** Contents of `tip.bin` and of the `log/{seq}.bin` files. */
  datatype Disk = Disk(tip: Option<Bytes>, log: map<u64, Bytes>)

  datatype StoreError = CasConflict(expected: Digest) | BadSeq | Corrupt | Io

  /** Where an append may be cut short. Each file write is atomic, so it happens or not. */
  datatype Fault = NoFault | FailLogWrite | FailTipWrite | LoseReply

  // ---- What an append does to the files --------------------------------------

  function TipOf(f: HeadFormat, d: Disk): Result<Option<RefHead>, StoreError> {
    match d.tip
    case None => Ok(None)
    case Some(bytes) => if f.decode(bytes).Some? then Ok(f.decode(bytes)) else Err(Corrupt)
  }

  function NextSeq(tip: Option<RefHead>): nat {
    match tip
    case None => 1
    case Some(h) => h.seqNo + 1
  }

  function Append(f: HeadFormat, d: Disk, head: RefHead, fault: Fault): (Disk, Result<Digest, StoreError>) {
    match TipOf(f, d)
    case Err(e) => (d, Err(e))
    case Ok(tip) =>
      var body := f.encode(head);
      if head.prev != HashOf(f.hash, tip) then (d, Err(CasConflict(HashOf(f.hash, tip))))
      else if head.seqNo != NextSeq(tip) then (d, Err(BadSeq))
      else match fault
        case FailLogWrite => (d, Err(Io))
        case FailTipWrite => (d.(log := d.log[head.seqNo := body]), Err(Io))
        case LoseReply => (Disk(Some(body), d.log[head.seqNo := body]), Err(Io))
        case NoFault => (Disk(Some(body), d.log[head.seqNo := body]), Ok(f.hash(head)))
  }

  /** The store object. All appends run under one lock, so one at a time. */
  class LocalStore {
    const format: HeadFormat
    var tipFile: Option<Bytes>
    var logFiles: map<u64, Bytes>

    ghost function Files(): Disk
      reads this
    {
      Disk(tipFile, logFiles)
    }

    constructor (f: HeadFormat)
      ensures format == f && Files() == Disk(None, map[])
    {
      format := f;
      tipFile, logFiles := None, map[];
    }

    method Tip() returns (r: Result<Option<RefHead>, StoreError>)
      ensures r == TipOf(format, Files())
    {
      if tipFile.None? { return Ok(None); }
      var h := format.decode(tipFile.value);
      r := if h.Some? then Ok(h) else Err(Corrupt);
    }

    method CasAppend(head: RefHead, fault: Fault) returns (r: Result<Digest, StoreError>)
      modifies this
      ensures (Files(), r) == Append(format, old(Files()), head, fault)
    {
      var current :- Tip();
      var expectedPrev := ZERO_HASH;
      if current.Some? { expectedPrev := format.hash(current.value); }
      if head.prev != expectedPrev { return Err(CasConflict(expectedPrev)); }
      if current.Some? {
        if head.seqNo != current.value.seqNo + 1 { return Err(BadSeq); }
      } else if head.seqNo != 1 {
        return Err(BadSeq);
      }
      var hash := format.hash(head);
      var body := format.encode(head);
      if fault == FailLogWrite { return Err(Io); }
      logFiles := logFiles[head.seqNo := body];
      if fault == FailTipWrite { return Err(Io); }
      tipFile := Some(body);
      if fault == LoseReply { return Err(Io); }
      r := Ok(hash);
    }

    /** Reads every log file above `after`, in whatever order the directory lists
        them, and sorts the decoded heads. */
    method Since(after: u64) returns (r: Result<seq<RefHead>, StoreError>)
      ensures r.Err? <==> exists s :: s in Selected(logFiles, after) && format.decode(logFiles[s]).None?
      ensures r.Ok? ==> exists order :: Lists(format, order, Selected(logFiles, after), logFiles)
                                        && r.value == SortBySeq(DecodeAll(format, order, logFiles))
    {
      var todo := Selected(logFiles, after);
      var out: seq<RefHead> := [];
      ghost var order: seq<u64> := [];
      while todo != {}
        invariant todo <= Selected(logFiles, after)
        invariant Lists(format, order, Selected(logFiles, after) - todo, logFiles)
        invariant out == DecodeAll(format, order, logFiles)
        decreases todo
      {
        var s :| s in todo;
        var h := format.decode(logFiles[s]);
        if h.None? { return Err(Corrupt); }
        DecodeAllAppend(format, order, s, logFiles);
        out, order := out + [h.value], order + [s];
        todo := todo - {s};
      }
      assert Selected(logFiles, after) - todo == Selected(logFiles, after);
      r := Ok(SortBySeq(out));
    }
  }

  // ---- Directory listings ------------------------------------------------------

  function Selected(log: map<u64, Bytes>, after: u64): set<u64> {
    set s | s in log && s > after
  }

  /** `order` names each file of `keys` once, and each decodes. */
  ghost predicate Lists(f: HeadFormat, order: seq<u64>, keys: set<u64>, log: map<u64, Bytes>) {
    && keys <= log.Keys
    && (forall i :: 0 <= i < |order| ==> order[i] in keys && f.decode(log[order[i]]).Some?)
    && (forall s :: s in keys ==> s in order)
    && (forall i, j :: 0 <= i < j < |order| ==> order[i] != order[j])
  }

  ghost function DecodeAll(f: HeadFormat, order: seq<u64>, log: map<u64, Bytes>): (hs: seq<RefHead>)
    requires forall i :: 0 <= i < |order| ==> order[i] in log && f.decode(log[order[i]]).Some?
    ensures |hs| == |order|
    ensures forall i :: 0 <= i < |hs| ==> hs[i] == f.decode(log[order[i]]).value
  {
    seq(|order|, i requires 0 <= i < |order| => f.decode(log[order[i]]).value)
  }

  lemma DecodeAllAppend(f: HeadFormat, order: seq<u64>, s: u64, log: map<u64, Bytes>)
    requires forall i :: 0 <= i < |order| ==> order[i] in log && f.decode(log[order[i]]).Some?
    requires s in log && f.decode(log[s]).Some?
    ensures DecodeAll(f, order + [s], log) == DecodeAll(f, order, log) + [f.decode(log[s]).value]
  {
  }

  function InsertBySeq(h: RefHead, hs: seq<RefHead>): (r: seq<RefHead>)
    ensures multiset(r) == multiset(hs) + multiset{h}
  {
    if hs == [] || h.seqNo < hs[0].seqNo then
      [h] + hs
    else
      assert hs == [hs[0]] + hs[1..];
      [hs[0]] + InsertBySeq(h, hs[1..])
  }

  function SortBySeq(hs: seq<RefHead>): (r: seq<RefHead>)
    ensures multiset(r) == multiset(hs)
  {
    if hs == [] then [] else
      var front := hs[..|hs| - 1];
      assert hs == front + [hs[|hs| - 1]];
      InsertBySeq(hs[|hs| - 1], SortBySeq(front))
  }
}
