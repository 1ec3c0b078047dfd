/** Dual key regression: interval tokens over epochs, cut into segments. */
module Dkr {
  import opened Bytes
  import opened Primitives
  import opened Text

  const CAPACITY: u64 := 0x10_0000
  const ZERO_SEED: Bytes48 := Zeros(48)

  datatype Interval = Interval(from: u64, to: u64, token: Bytes48)

  datatype DkrError = EpochOutOfWindow(epoch: u64, from: u64, to: u64)

  /** What the object holds. */
  datatype State = State(seed: Bytes48, epoch: u64, start: u64, used: u64, gen: u64)

  function SaturatingInc(n: u64): u64 { if n == TWO_TO_64 - 1 then n else n + 1 }

  function Current(s: State): Interval { Interval(s.start, s.epoch, s.seed) }

  function Seeded(s: State, seeding: Bytes48): State {
    if s.seed == ZERO_SEED then s.(seed := seeding) else s
  }

  /** A new segment at `epoch` under a new seed: a block, or re-initialization. */
  function Fresh(s: State, epoch: u64, seed: Bytes48): State {
    State(seed, epoch, epoch, 0, SaturatingInc(s.gen))
  }

  /** Advancing never fails forward: it extends the segment, or starts the next one. */
  function Advanced(s: State, epoch: u64, seeding: Bytes48, seed: Bytes48): (r: State)
    requires epoch + 1 < TWO_TO_64
    ensures epoch < s.epoch ==> r == Seeded(s, seeding)
  {
    var t := Seeded(s, seeding);
    if epoch < t.epoch then t
    else
      var delta := Max(epoch - t.start, 0) + 1;
      if delta > CAPACITY then Fresh(t, epoch, seed) else t.(epoch := epoch, used := delta)
  }

  function Info(epoch: u64): Bytes { DomainLabel("dkr-epoch:" + Decimal(epoch)) }

  function DeriveKey(hkdf: (Bytes, Bytes) -> Bytes32, i: Interval, epoch: u64): Result<Bytes32, DkrError> {
    if epoch < i.from || epoch > i.to then Err(EpochOutOfWindow(epoch, i.from, i.to))
    else Ok(hkdf(i.token, Info(epoch)))
  }

  predicate Covers(i: Interval, epoch: u64) { i.from <= epoch <= i.to }

  function CapInterval(i: Interval, last: u64): Interval { i.(to := Min(last, i.to)) }

  /** Random draws are parameters; `seeding` is only read when the seed is still zero. */
  class IntervalDkr {
    var seed: Bytes48
    var epoch: u64
    var segmentStart: u64
    var segmentEpochs: u64
    var segmentGen: u64

    ghost function Value(): State
      reads this
    {
      State(seed, epoch, segmentStart, segmentEpochs, segmentGen)
    }

    constructor (seed: Bytes48)
      ensures Value() == State(seed, 0, 0, 0, 0)
    {
      this.seed := seed;
      epoch, segmentStart, segmentEpochs, segmentGen := 0, 0, 0, 0;
    }

    method EnsureSeeded(seeding: Bytes48)
      modifies this
      ensures Value() == Seeded(old(Value()), seeding)
    {
      if seed == ZERO_SEED { seed := seeding; }
    }

    method Init(seeding: Bytes48) returns (i: Interval)
      modifies this
      ensures Value() == State(Seeded(old(Value()), seeding).seed, 0, 0, 0, 0)
      ensures i == Current(Value())
    {
      EnsureSeeded(seeding);
      epoch, segmentStart, segmentEpochs, segmentGen := 0, 0, 0, 0;
      i := Interval(segmentStart, epoch, seed);
    }

    method ReinitSegment(epoch: u64, drawn: Bytes48) returns (i: Interval)
      modifies this
      ensures Value() == Fresh(old(Value()), epoch, drawn)
      ensures i == Current(Value())
    {
      seed := drawn;
      this.epoch := epoch;
      segmentStart := epoch;
      segmentEpochs := 0;
      segmentGen := SaturatingInc(segmentGen);
      i := Interval(segmentStart, this.epoch, seed);
    }

    method Advance(epoch: u64, seeding: Bytes48, drawn: Bytes48) returns (r: Result<Interval, DkrError>)
      requires epoch + 1 < TWO_TO_64
      modifies this
      ensures Value() == Advanced(old(Value()), epoch, seeding, drawn)
      ensures r == if epoch < old(this.epoch) then Err(EpochOutOfWindow(epoch, old(segmentStart), old(this.epoch)))
                   else Ok(Current(Value()))
    {
      EnsureSeeded(seeding);
      if epoch < this.epoch { return Err(EpochOutOfWindow(epoch, segmentStart, this.epoch)); }
      var delta := Max(epoch - segmentStart, 0) + 1;
      if delta > CAPACITY {
        var i := ReinitSegment(epoch, drawn);
        return Ok(i);
      }
      this.epoch := epoch;
      segmentEpochs := delta;
      r := Ok(Interval(segmentStart, this.epoch, seed));
    }

    method ForwardBlock(epoch: u64, drawn: Bytes48)
      modifies this
      ensures Value() == Fresh(old(Value()), epoch, drawn)
    {
      seed := drawn;
      this.epoch := epoch;
      segmentStart := epoch;
      segmentEpochs := 0;
      segmentGen := SaturatingInc(segmentGen);
    }

    method BackwardBlock(epoch: u64, drawn: Bytes48) returns (i: Interval)
      modifies this
      ensures Value() == Fresh(old(Value()), epoch, drawn)
      ensures i == Current(Value())
    {
      seed := drawn;
      this.epoch := epoch;
      segmentStart := epoch;
      segmentEpochs := 0;
      segmentGen := SaturatingInc(segmentGen);
      i := Interval(segmentStart, this.epoch, seed);
    }
  }

  // ---- Runs ----------------------------------------------------------------------------------

  datatype Op =
    | Advance(epoch: u64, seeding: Bytes48, drawn: Bytes48)
    | ForwardBlock(epoch: u64, drawn: Bytes48)
    | BackwardBlock(epoch: u64, drawn: Bytes48)

  /** An issued interval and the generation it was issued in. */
  datatype Issue = Issue(gen: u64, interval: Interval)

  predicate Callable(op: Op) { op.epoch + 1 < TWO_TO_64 }

  function After(s: State, op: Op): State
    requires Callable(op)
  {
    match op
    case Advance(e, seeding, drawn) => Advanced(s, e, seeding, drawn)
    case ForwardBlock(e, drawn) => Fresh(s, e, drawn)
    case BackwardBlock(e, drawn) => Fresh(s, e, drawn)
  }

  function IssuedBy(s: State, op: Op): seq<Issue>
    requires Callable(op)
  {
    var t := After(s, op);
    if op.ForwardBlock? || (op.Advance? && op.epoch < s.epoch) then [] else [Issue(t.gen, Current(t))]
  }

  /** A block names an epoch above the current one, and random seeds are not all zero. */
  predicate Disciplined(s: State, op: Op) {
    Callable(op) && op.drawn != ZERO_SEED && (op.Advance? || s.epoch < op.epoch)
  }

  ghost predicate Runs(s: State, ops: seq<Op>)
    decreases |ops|
  {
    ops == [] || (Disciplined(s, ops[0]) && Runs(After(s, ops[0]), ops[1..]))
  }

  function IssuedIn(s: State, ops: seq<Op>): seq<Issue>
    requires Runs(s, ops)
    decreases |ops|
  {
    if ops == [] then [] else IssuedBy(s, ops[0]) + IssuedIn(After(s, ops[0]), ops[1..])
  }

  // ---- Windows of a run -------------------------------------------------------------------------

  ghost predicate Sound(s: State) {
    s.seed != ZERO_SEED && s.start <= s.epoch < s.start + CAPACITY
  }

  /** `x` came from `s` or from a state before it. */
  ghost predicate Behind(x: Issue, s: State) {
    && x.interval.from <= x.interval.to < x.interval.from + CAPACITY
    && x.gen <= s.gen
    && (x.gen == s.gen ==> x.interval.from == s.start && x.interval.token == s.seed && x.interval.to <= s.epoch)
    && (x.gen < s.gen ==> x.interval.to < s.start)
  }

  /** `x` was issued before `y`: in one generation they share start and token and nest,
      across generations the earlier one ends before the later one starts. */
  ghost predicate Ordered(x: Issue, y: Issue) {
    && x.gen <= y.gen
    && (x.gen == y.gen ==> x.interval.from == y.interval.from && x.interval.token == y.interval.token
                           && x.interval.to <= y.interval.to)
    && (x.gen < y.gen ==> x.interval.to < y.interval.from)
  }

  lemma StepMoves(s: State, op: Op)
    requires Sound(s) && Disciplined(s, op) && s.gen + 1 < TWO_TO_64
    ensures var t := After(s, op);
            && Sound(t) && s.gen <= t.gen <= s.gen + 1
            && (t.gen == s.gen ==> t.start == s.start && t.seed == s.seed && s.epoch <= t.epoch)
            && (t.gen > s.gen ==> s.epoch < t.start)
    ensures forall x :: x in IssuedBy(s, op) ==> x == Issue(After(s, op).gen, Current(After(s, op)))
  {
  }

  lemma StaysBehind(x: Issue, s: State, op: Op)
    requires Behind(x, s) && Sound(s) && Disciplined(s, op) && s.gen + 1 < TWO_TO_64
    ensures Behind(x, After(s, op))
    ensures forall y :: y in IssuedBy(s, op) ==> Behind(y, After(s, op)) && Ordered(x, y)
  {
    StepMoves(s, op);
  }

  lemma {:induction false} LaterIssues(x: Issue, s: State, ops: seq<Op>)
    requires Behind(x, s) && Sound(s) && Runs(s, ops) && s.gen + |ops| < TWO_TO_64
    ensures forall y :: y in IssuedIn(s, ops) ==> Ordered(x, y)
    decreases |ops|
  {
    if ops != [] {
      StepMoves(s, ops[0]);
      StaysBehind(x, s, ops[0]);
      LaterIssues(x, After(s, ops[0]), ops[1..]);
    }
  }

  /** Every interval spans at most the capacity, and any two are ordered. */
  ghost predicate Windows(all: seq<Issue>) {
    && (forall x :: x in all ==> x.interval.from <= x.interval.to < x.interval.from + CAPACITY)
    && (forall i, j :: 0 <= i < j < |all| ==> Ordered(all[i], all[j]))
  }

  lemma WindowsCons(x: Issue, rest: seq<Issue>)
    requires Windows(rest) && x.interval.from <= x.interval.to < x.interval.from + CAPACITY
    requires forall y :: y in rest ==> Ordered(x, y)
    ensures Windows([x] + rest)
  {
    var all := [x] + rest;
    forall i, j | 0 <= i < j < |all|
      ensures Ordered(all[i], all[j])
    {
      assert all[j] == rest[j - 1] && rest[j - 1] in rest;
      if i > 0 { assert all[i] == rest[i - 1]; }
    }
  }

  /** Over a whole run the issued intervals are such windows. */
  lemma {:induction false} WindowsOfRun(s: State, ops: seq<Op>)
    requires Sound(s) && Runs(s, ops) && s.gen + |ops| < TWO_TO_64
    ensures Windows(IssuedIn(s, ops))
    decreases |ops|
  {
    if ops != [] {
      var t, first := After(s, ops[0]), IssuedBy(s, ops[0]);
      StepMoves(s, ops[0]);
      WindowsOfRun(t, ops[1..]);
      if first != [] {
        assert Behind(first[0], t);
        LaterIssues(first[0], t, ops[1..]);
        WindowsCons(first[0], IssuedIn(t, ops[1..]));
      } else {
        assert IssuedIn(s, ops) == IssuedIn(t, ops[1..]);
      }
    }
  }

  /** All intervals of a run that contain an epoch derive one key for it. */
  lemma OneKeyPerEpoch(hkdf: (Bytes, Bytes) -> Bytes32, s: State, ops: seq<Op>, x: Issue, y: Issue, epoch: u64)
    requires Sound(s) && Runs(s, ops) && s.gen + |ops| < TWO_TO_64
    requires x in IssuedIn(s, ops) && y in IssuedIn(s, ops)
    requires DeriveKey(hkdf, x.interval, epoch).Ok? && DeriveKey(hkdf, y.interval, epoch).Ok?
    ensures DeriveKey(hkdf, x.interval, epoch) == DeriveKey(hkdf, y.interval, epoch)
  {
    WindowsOfRun(s, ops);
    var all := IssuedIn(s, ops);
    var i :| 0 <= i < |all| && all[i] == x;
    var j :| 0 <= j < |all| && all[j] == y;
    if i < j { assert Ordered(all[i], all[j]); }
    if j < i { assert Ordered(all[j], all[i]); }
  }

  /** The discipline is needed: the interval held before a block and the one after it share
      an epoch, under two different seeds, exactly when the block names an epoch that the
      segment already covers. */
  lemma BlockOverlapsIff(s: State, block: u64, drawn: Bytes48)
    requires Sound(s) && block + 1 < TWO_TO_64
    ensures var before, after := Current(s), Current(Fresh(s, block, drawn));
            (exists e :: Covers(before, e) && Covers(after, e)) <==> s.start <= block <= s.epoch
  {
    assert Covers(Current(Fresh(s, block, drawn)), block);
    if s.start <= block <= s.epoch { assert Covers(Current(s), block); }
  }

  /** Capping an interval removes exactly the keys above the cap. */
  lemma CapKeepsKeysUpTo(hkdf: (Bytes, Bytes) -> Bytes32, i: Interval, last: u64, epoch: u64)
    ensures DeriveKey(hkdf, CapInterval(i, last), epoch).Ok? <==> DeriveKey(hkdf, i, epoch).Ok? && epoch <= last
    ensures epoch <= last && DeriveKey(hkdf, i, epoch).Ok? ==>
              DeriveKey(hkdf, CapInterval(i, last), epoch) == DeriveKey(hkdf, i, epoch)
  {
  }

  /** A key is derived exactly inside the interval, by expanding its token with a label that ends
      in the decimal digits of the epoch. */
  lemma DerivedIff(hkdf: (Bytes, Bytes) -> Bytes32, i: Interval, epoch: u64)
    ensures DeriveKey(hkdf, i, epoch).Ok? <==> i.from <= epoch <= i.to
    ensures DeriveKey(hkdf, i, epoch).Ok? ==>
              DeriveKey(hkdf, i, epoch).value == hkdf(i.token, Ascii("safehub-v1:dkr-epoch:") + Ascii(Decimal(epoch)))
  {
    AsciiOfSum("safehub-v1:dkr-epoch:", Decimal(epoch));
    assert "safehub-v1:" + ("dkr-epoch:" + Decimal(epoch)) == "safehub-v1:dkr-epoch:" + Decimal(epoch);
  }

  /** The count of a segment's epochs: zero when it was just begun at the current one, else the
      epochs from its start to the current one. Only an advance past the capacity begins one. */
  lemma SegmentCounts(s: State, op: Op)
    requires Callable(op) && s.start <= s.epoch
    ensures var t := After(s, op);
            && (op.Advance? && op.epoch < s.epoch ==> t.(seed := s.seed) == s)
            && (op.Advance? && s.epoch <= op.epoch < s.start + 0x10_0000 ==>
                  t.start == s.start && t.gen == s.gen && t.epoch == op.epoch && t.used == op.epoch - s.start + 1)
            && (!op.Advance? || (op.epoch >= s.epoch && op.epoch >= s.start + 0x10_0000) ==>
                  t.seed == op.drawn && t.start == op.epoch && t.epoch == op.epoch && t.used == 0)
  {
  }

  // ---- Advancing one epoch at a time --------------------------------------------------------------

  function UnitAdvances(seed: Bytes48, n: nat, seeds: nat -> Bytes48): (s: State)
    requires n + 1 < TWO_TO_64
    ensures s.epoch == n
  {
    if n == 0 then State(seed, 0, 0, 0, 0)
    else Advanced(UnitAdvances(seed, n - 1, seeds), n, seeds(n), seeds(n))
  }

  lemma SegmentStep(n: nat)
    requires n > 0
    ensures var before := (n - 1) / CAPACITY * CAPACITY;
            && before <= n - 1 < before + CAPACITY
            && n / CAPACITY == (if n - before < CAPACITY then (n - 1) / CAPACITY else (n - 1) / CAPACITY + 1)
            && (n - before >= CAPACITY ==> n == n / CAPACITY * CAPACITY)
  {
  }

  /** Visiting every epoch in turn, the segments are the multiples of the capacity. */
  lemma {:induction false} SegmentsAreAligned(seed: Bytes48, n: nat, seeds: nat -> Bytes48)
    requires n + 1 < TWO_TO_64
    ensures var s := UnitAdvances(seed, n, seeds);
            s.start == n / CAPACITY * CAPACITY && s.gen == n / CAPACITY
  {
    if n > 0 {
      SegmentsAreAligned(seed, n - 1, seeds);
      SegmentStep(n);
    }
  }

  // ---- Key labels ------------------------------------------------------------------------------------

  /** Different epochs are derived under different labels. */
  lemma InfoInjective(m: u64, n: u64)
    requires Info(m) == Info(n)
    ensures m == n
  {
    var prefix := "safehub-v1:" + "dkr-epoch:";
    assert prefix + Decimal(m) == "safehub-v1:" + ("dkr-epoch:" + Decimal(m));
    assert prefix + Decimal(n) == "safehub-v1:" + ("dkr-epoch:" + Decimal(n));
    NumberedLabelInjective(prefix, m, n);
  }
}
