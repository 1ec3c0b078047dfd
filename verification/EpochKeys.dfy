/** Which epoch keys a member can still derive after invitations and rotations. */
module EpochKeys {
  import opened Bytes
  import opened Primitives
  import Dkr

  type Kdf = (Bytes, Bytes) -> Bytes32

  datatype Material = Material(epoch: u64, transport: Bytes48, refsMac: Bytes32, historyFrom: u64, dkrToken: Bytes,
                               priorTransport: map<u64, Bytes>, priorRefsMac: map<u64, Bytes>)

  datatype KeyError = BeforeGrant | NotRetained | CorruptSeed | OutOfWindow

  /** Random draws of one derivation: to replace a zero seed, and to start a segment. */
  datatype Draws = Draws(seeding: Bytes48, segment: Bytes48)

  // ---- Keeping earlier epochs -----------------------------------------------------------------

  function Inherited(m: Material, previous: Option<Material>): Material {
    match previous
    case None => m
    case Some(p) =>
      if p.epoch == m.epoch then m.(priorTransport := p.priorTransport, priorRefsMac := p.priorRefsMac)
      else m.(priorTransport := p.priorTransport[p.epoch := p.transport],
              priorRefsMac := p.priorRefsMac[p.epoch := p.refsMac])
  }

  method Inherit(m: Material, previous: Option<Material>) returns (r: Material)
    ensures r == Inherited(m, previous)
  {
    r := m;
    if previous.Some? {
      var prev := previous.value;
      r := r.(priorTransport := prev.priorTransport);
      r := r.(priorRefsMac := prev.priorRefsMac);
      if prev.epoch != r.epoch {
        r := r.(priorTransport := r.priorTransport[prev.epoch := prev.transport]);
        r := r.(priorRefsMac := r.priorRefsMac[prev.epoch := prev.refsMac]);
      }
    }
  }

  /** Inheriting keeps what the previous material had retained and adds its own exports, unless both
      are of one epoch. The new exports stay as they are. */
  lemma InheritKeeps(m: Material, p: Material, e: u64)
    ensures var r := Inherited(m, Some(p));
            var added := p.epoch != m.epoch && e == p.epoch;
            && r.(priorTransport := m.priorTransport, priorRefsMac := m.priorRefsMac) == m
            && (e in r.priorTransport <==> e in p.priorTransport || added)
            && (e in r.priorRefsMac <==> e in p.priorRefsMac || added)
            && (added ==> r.priorTransport[e] == p.transport && r.priorRefsMac[e] == p.refsMac)
            && (!added && e in r.priorTransport ==> r.priorTransport[e] == p.priorTransport[e])
            && (!added && e in r.priorRefsMac ==> r.priorRefsMac[e] == p.priorRefsMac[e])
  {
  }

  function RefsMacAt(m: Material, epoch: u64): Option<Bytes> {
    if epoch == m.epoch then Some(m.refsMac)
    else if epoch in m.priorRefsMac then Some(m.priorRefsMac[epoch])
    else None
  }

  // ---- Deriving a key -----------------------------------------------------------------------------

  function IntervalSeed(m: Material): Bytes48 { if |m.dkrToken| == 48 then m.dkrToken else m.transport }

  function SeedFor(m: Material, epoch: u64): Result<Bytes48, KeyError> {
    if epoch < m.historyFrom then Err(BeforeGrant)
    else if epoch == m.epoch then Ok(IntervalSeed(m))
    else if epoch !in m.priorTransport then Err(NotRetained)
    else if |m.priorTransport[epoch]| != 48 then Err(CorruptSeed)
    else Ok(m.priorTransport[epoch])
  }

  /** The interval of a fresh object advanced once, to `top`. */
  function SegmentTo(seed: Bytes48, top: u64, d: Draws): Dkr.Interval
    requires top + 1 < TWO_TO_64
  {
    Dkr.Current(Dkr.Advanced(Dkr.State(seed, 0, 0, 0, 0), top, d.seeding, d.segment))
  }

  function Granted(m: Material, i: Dkr.Interval): Dkr.Interval {
    if m.historyFrom > 0 then i.(from := m.historyFrom) else i
  }

  predicate Bounded(m: Material, epoch: u64) { Max(m.epoch, epoch) + 1 < TWO_TO_64 }

  function KeyAt(hkdf: Kdf, m: Material, epoch: u64, d: Draws): Result<Bytes32, KeyError>
    requires Bounded(m, epoch)
  {
    var seed :- SeedFor(m, epoch);
    var key := Dkr.DeriveKey(hkdf, Granted(m, SegmentTo(seed, Max(m.epoch, epoch), d)), epoch);
    if key.Ok? then Ok(key.value) else Err(OutOfWindow)
  }

  method EpochKeyAt(hkdf: Kdf, m: Material, epoch: u64, d: Draws) returns (r: Result<Bytes32, KeyError>)
    requires Bounded(m, epoch)
    ensures r == KeyAt(hkdf, m, epoch, d)
  {
    if epoch < m.historyFrom { return Err(BeforeGrant); }
    var seed := IntervalSeed(m);
    if epoch != m.epoch {
      if epoch !in m.priorTransport { return Err(NotRetained); }
      var prior := m.priorTransport[epoch];
      if |prior| != 48 { return Err(CorruptSeed); }
      seed := prior;
    }
    var dkr := new Dkr.IntervalDkr(seed);
    var advanced := dkr.Advance(Max(m.epoch, epoch), d.seeding, d.segment);
    var interval := advanced.value; // a new object can always advance
    var capped := if m.historyFrom > 0 then Dkr.Interval(m.historyFrom, interval.to, interval.token) else interval;
    var key := Dkr.DeriveKey(hkdf, capped, epoch);
    r := if key.Ok? then Ok(key.value) else Err(OutOfWindow);
  }

  /** Every outcome of a derivation, for any material. */
  lemma KeyOutcome(hkdf: Kdf, m: Material, epoch: u64, d: Draws)
    requires Bounded(m, epoch)
    ensures var r := KeyAt(hkdf, m, epoch, d);
            var held := epoch == m.epoch || (epoch in m.priorTransport && |m.priorTransport[epoch]| == 48);
            && (r == Err(BeforeGrant) <==> epoch < m.historyFrom)
            && (r == Err(NotRetained) <==> epoch >= m.historyFrom && epoch != m.epoch && epoch !in m.priorTransport)
            && (r == Err(CorruptSeed) <==> epoch >= m.historyFrom && epoch != m.epoch
                                           && epoch in m.priorTransport && |m.priorTransport[epoch]| != 48)
            && (r == Err(OutOfWindow) <==> m.historyFrom == 0 && held && m.epoch >= 0x10_0000 && epoch < m.epoch)
            && (r.Ok? ==> r.value == hkdf(SecretOf(m, epoch, d), Dkr.Info(epoch)))
  {
  }

  /** The secret of a derivation: the token or the retained seed, a drawn one where that is all
      zero, and past the first segment always a drawn one. */
  function SecretOf(m: Material, epoch: u64, d: Draws): Bytes {
    var seed := if epoch != m.epoch && epoch in m.priorTransport then m.priorTransport[epoch]
                else if |m.dkrToken| == 48 then m.dkrToken else m.transport;
    if m.epoch >= 0x10_0000 || epoch >= 0x10_0000 then d.segment else if seed == Zeros(48) then d.seeding else seed
  }

  // ---- Events of a group's life -----------------------------------------------------------------------

  datatype Kind = Bootstrap | Rotate | InviteFull | InviteForwardOnly

  /** An epoch change with the keys that the group exports for the new epoch. */
  datatype Event = Event(kind: Kind, epoch: u64, transport: Bytes48, refsMac: Bytes32, draws: Draws)

  datatype Grant = Grant(historyFrom: u64, dkrToken: Bytes, priorTransport: map<u64, Bytes>,
                         priorRefsMac: map<u64, Bytes>)

  /** The token that the new epoch's heads are sealed under. */
  function TokenOf(ev: Event): Bytes48
    requires ev.epoch + 1 < TWO_TO_64
  {
    match ev.kind
    case Bootstrap => ev.transport
    case Rotate => ev.transport
    case InviteFull => SegmentTo(ev.transport, ev.epoch, ev.draws).token
    case InviteForwardOnly => ev.draws.segment
  }

  function Exported(ev: Event): Material
    requires ev.epoch + 1 < TWO_TO_64
  {
    Material(ev.epoch, ev.transport, ev.refsMac, 0, TokenOf(ev), map[], map[])
  }

  function Next(before: Option<Material>, ev: Event): Material
    requires ev.epoch + 1 < TWO_TO_64
  {
    Inherited(Exported(ev), before)
  }

  method RotateGroup(before: Option<Material>, ev: Event) returns (m: Material)
    requires ev.epoch + 1 < TWO_TO_64 && ev.kind in {Bootstrap, Rotate}
    ensures m == Next(before, ev)
  {
    m := Material(ev.epoch, ev.transport, ev.refsMac, 0, ev.transport, map[], map[]);
    m := Inherit(m, before);
  }

  method InviteMember(before: Option<Material>, ev: Event) returns (m: Material, grant: Grant)
    requires ev.epoch + 1 < TWO_TO_64 && ev.kind in {InviteFull, InviteForwardOnly}
    ensures m == Next(before, ev) && grant == GrantFor(m, ev.kind == InviteForwardOnly)
  {
    var forwardOnly := ev.kind == InviteForwardOnly;
    var dkr := new Dkr.IntervalDkr(ev.transport);
    var _ := dkr.Init(ev.draws.seeding);
    var token: Bytes48;
    if forwardOnly {
      var join := dkr.BackwardBlock(ev.epoch, ev.draws.segment);
      token := join.token;
    } else {
      var join := dkr.Advance(ev.epoch, ev.draws.seeding, ev.draws.segment);
      token := join.value.token; // a new object can always advance
      SeedingTwice(ev);
    }
    m := Material(ev.epoch, ev.transport, ev.refsMac, 0, token, map[], map[]);
    m := Inherit(m, before);
    grant := Grant(if forwardOnly then ev.epoch else 0, token,
                   if forwardOnly then map[] else m.priorTransport,
                   if forwardOnly then map[] else m.priorRefsMac);
  }

  lemma SeedingTwice(ev: Event)
    requires ev.epoch + 1 < TWO_TO_64
    ensures var s := Dkr.State(ev.transport, 0, 0, 0, 0);
            Dkr.Advanced(Dkr.Seeded(s, ev.draws.seeding), ev.epoch, ev.draws.seeding, ev.draws.segment)
            == Dkr.Advanced(s, ev.epoch, ev.draws.seeding, ev.draws.segment)
  {
  }

  function GrantFor(m: Material, forwardOnly: bool): Grant {
    if forwardOnly then Grant(m.epoch, m.dkrToken, map[], map[])
    else Grant(0, m.dkrToken, m.priorTransport, m.priorRefsMac)
  }

  /** The joiner's material: the group's exports for its first epoch, and the grant. */
  method AcceptWelcome(epoch: u64, transport: Bytes48, refsMac: Bytes32, grant: Grant) returns (m: Material)
    ensures m == Joined(epoch, transport, refsMac, grant)
  {
    var token := if |grant.dkrToken| == 48 then grant.dkrToken else transport;
    m := Material(epoch, transport, refsMac, grant.historyFrom, token, grant.priorTransport, grant.priorRefsMac);
  }

  function Joined(epoch: u64, transport: Bytes48, refsMac: Bytes32, grant: Grant): Material {
    Material(epoch, transport, refsMac, grant.historyFrom,
             if |grant.dkrToken| == 48 then grant.dkrToken else transport, grant.priorTransport, grant.priorRefsMac)
  }

  // ---- Runs of the admin's device ------------------------------------------------------------------------

  /** Epochs rise strictly, below the top of the counter, and no seed is all zero. */
  ghost predicate GroupRun(run: seq<Event>) {
    && run != []
    && (forall i :: 0 <= i < |run| ==> run[i].epoch + 1 < TWO_TO_64 && NoZeroSeed(run[i]))
    && (forall i, j :: 0 <= i < j < |run| ==> run[i].epoch < run[j].epoch)
  }

  predicate NoZeroSeed(ev: Event) {
    ev.transport != Dkr.ZERO_SEED && ev.draws.seeding != Dkr.ZERO_SEED && ev.draws.segment != Dkr.ZERO_SEED
  }

  function MaterialAfter(run: seq<Event>): Material
    requires GroupRun(run)
  {
    var n := |run| - 1;
    if n == 0 then Next(None, run[0]) else Next(Some(MaterialAfter(run[..n])), run[n])
  }

  /** The material holds the current exports and each earlier epoch's transport seed and
      MAC key, and nothing else. */
  ghost predicate Retains(m: Material, run: seq<Event>)
    requires GroupRun(run)
  {
    var n := |run| - 1;
    && IsCurrent(m, run[n])
    && (forall i :: 0 <= i < n ==> HoldsEvent(m, run[i]))
    && (forall e :: e in m.priorTransport || e in m.priorRefsMac ==> PassedThrough(run[..n], e))
  }

  predicate IsCurrent(m: Material, ev: Event)
    requires ev.epoch + 1 < TWO_TO_64
  {
    && m.epoch == ev.epoch && m.historyFrom == 0
    && m.transport == ev.transport && m.refsMac == ev.refsMac && m.dkrToken == TokenOf(ev)
  }

  predicate HoldsEvent(m: Material, ev: Event) {
    && ev.epoch in m.priorTransport && m.priorTransport[ev.epoch] == ev.transport
    && ev.epoch in m.priorRefsMac && m.priorRefsMac[ev.epoch] == ev.refsMac
  }

  ghost predicate PassedThrough(run: seq<Event>, epoch: u64) {
    exists ev :: ev in run && ev.epoch == epoch
  }

  lemma RunPrefix(run: seq<Event>, n: nat)
    requires GroupRun(run) && 0 < n <= |run|
    ensures GroupRun(run[..n])
  {
  }

  /** One step keeps the exports of the previous epoch and whatever was kept before it. */
  lemma StepRetains(p: Material, last: Event, ev: Event)
    requires last.epoch < ev.epoch && ev.epoch + 1 < TWO_TO_64 && IsCurrent(p, last)
    ensures var m := Next(Some(p), ev);
            && IsCurrent(m, ev) && HoldsEvent(m, last)
            && (forall x :: HoldsEvent(p, x) && x.epoch != last.epoch ==> HoldsEvent(m, x))
            && m.priorTransport.Keys == p.priorTransport.Keys + {last.epoch}
            && m.priorRefsMac.Keys == p.priorRefsMac.Keys + {last.epoch}
  {
  }

  lemma {:induction false} RunRetains(run: seq<Event>)
    requires GroupRun(run)
    ensures Retains(MaterialAfter(run), run)
  {
    var n := |run| - 1;
    if n > 0 {
      var front := run[..n];
      RunPrefix(run, n);
      RunRetains(front);
      var p, m := MaterialAfter(front), MaterialAfter(run);
      assert front[n - 1] == run[n - 1] && front[..n - 1] == run[..n - 1];
      StepRetains(p, run[n - 1], run[n]);
      forall i | 0 <= i < n
        ensures HoldsEvent(m, run[i])
      {
        if i < n - 1 { assert run[i] == front[i] && HoldsEvent(p, front[i]); }
      }
      forall e | e in m.priorTransport || e in m.priorRefsMac
        ensures PassedThrough(run[..n], e)
      {
        assert e == run[n - 1].epoch || PassedThrough(run[..n - 1], e);
        PassedLonger(run, n, e);
      }
    }
  }

  lemma PassedLonger(run: seq<Event>, n: nat, e: u64)
    requires 0 < n <= |run| && (e == run[n - 1].epoch || PassedThrough(run[..n - 1], e))
    ensures PassedThrough(run[..n], e)
  {
    assert run[..n] == run[..n - 1] + [run[n - 1]];
    var ev :| ev in run[..n] && ev.epoch == e;
  }

  // ---- What stays readable -----------------------------------------------------------------------------------

  /** The MAC key of every epoch passed through is still there. */
  lemma EveryMacRetained(run: seq<Event>, i: nat)
    requires GroupRun(run) && i < |run|
    ensures RefsMacAt(MaterialAfter(run), run[i].epoch) == Some(run[i].refsMac)
  {
    if i < |run| - 1 {
      RetainedAt(run, i);
      CurrentEpoch(run);
      assert run[i].epoch < run[|run| - 1].epoch;
    } else {
      RunRetains(run);
    }
  }

  lemma RetainedAt(run: seq<Event>, i: nat)
    requires GroupRun(run) && i < |run| - 1
    ensures HoldsEvent(MaterialAfter(run), run[i])
  {
    RunRetains(run);
  }

  /** And of no other epoch. */
  lemma NoOtherMac(run: seq<Event>, e: u64)
    requires GroupRun(run) && !PassedThrough(run, e)
    ensures RefsMacAt(MaterialAfter(run), e) == None
  {
    RunRetains(run);
    var n, m := |run| - 1, MaterialAfter(run);
    assert run[n] in run;
    if e in m.priorRefsMac { PassedSomewhere(run, n, e); }
  }

  lemma PassedSomewhere(run: seq<Event>, n: nat, e: u64)
    requires n <= |run| && PassedThrough(run[..n], e)
    ensures PassedThrough(run, e)
  {
    var ev :| ev in run[..n] && ev.epoch == e;
    assert ev in run;
  }

  lemma SegmentKey(hkdf: Kdf, seed: Bytes48, top: u64, epoch: u64, d: Draws)
    requires seed != Dkr.ZERO_SEED && epoch <= top && top + 1 < TWO_TO_64
    ensures var key := Dkr.DeriveKey(hkdf, SegmentTo(seed, top, d), epoch);
            && (top < Dkr.CAPACITY ==> key == Ok(hkdf(seed, Dkr.Info(epoch))))
            && (top >= Dkr.CAPACITY && epoch < top ==> key.Err?)
            && (top >= Dkr.CAPACITY && epoch == top ==> key == Ok(hkdf(d.segment, Dkr.Info(epoch))))
  {
  }

  lemma TokenIsSet(ev: Event)
    requires ev.epoch + 1 < TWO_TO_64 && NoZeroSeed(ev)
    ensures TokenOf(ev) != Dkr.ZERO_SEED
    ensures ev.epoch < Dkr.CAPACITY && ev.kind != InviteForwardOnly ==> TokenOf(ev) == ev.transport
  {
  }

  /** The secret that a derivation for the material's own epoch starts from: the token, or
      past the first segment whatever this call happens to draw. */
  function OwnSecret(m: Material, d: Draws): Bytes {
    if m.epoch < Dkr.CAPACITY then m.dkrToken else d.segment
  }

  lemma CurrentKey(hkdf: Kdf, m: Material, d: Draws)
    requires |m.dkrToken| == 48 && m.dkrToken != Dkr.ZERO_SEED && m.epoch + 1 < TWO_TO_64
    requires m.historyFrom <= m.epoch
    ensures KeyAt(hkdf, m, m.epoch, d) == Ok(hkdf(OwnSecret(m, d), Dkr.Info(m.epoch)))
  {
    SegmentKey(hkdf, m.dkrToken, m.epoch, m.epoch, d);
  }

  /** At its own time, an epoch's key comes from that epoch's token, or from a fresh draw. */
  lemma KeyInForce(hkdf: Kdf, run: seq<Event>, d: Draws)
    requires GroupRun(run)
    ensures var last := run[|run| - 1];
            var secret: Bytes := if last.epoch < Dkr.CAPACITY then TokenOf(last) else d.segment;
            KeyAt(hkdf, MaterialAfter(run), last.epoch, d) == Ok(hkdf(secret, Dkr.Info(last.epoch)))
  {
    RunRetains(run);
    TokenIsSet(run[|run| - 1]);
    CurrentKey(hkdf, MaterialAfter(run), d);
  }

  /** Later, it comes from the transport seed, as long as the first segment lasts. */
  lemma KeyLater(hkdf: Kdf, run: seq<Event>, i: nat, d: Draws)
    requires GroupRun(run) && i < |run| - 1
    ensures var m := MaterialAfter(run);
            KeyAt(hkdf, m, run[i].epoch, d)
            == if m.epoch < Dkr.CAPACITY then Ok(hkdf(run[i].transport, Dkr.Info(run[i].epoch))) else Err(OutOfWindow)
  {
    RunRetains(run);
    var m := MaterialAfter(run);
    assert HoldsEvent(m, run[i]);
    SegmentKey(hkdf, run[i].transport, m.epoch, run[i].epoch, d);
  }

  /** The exact condition for superseded epochs: one is still read with the key it was
      written with if and only if the group is within the first segment and the epoch's
      token and transport seed derive the same key. */
  lemma ReadableIff(hkdf: Kdf, run: seq<Event>, i: nat, earlier: Draws, now: Draws)
    requires GroupRun(run) && i < |run| - 1
    ensures GroupRun(run[..i + 1])
    ensures var m, written := MaterialAfter(run), MaterialAfter(run[..i + 1]);
            var info := Dkr.Info(run[i].epoch);
            KeyAt(hkdf, m, run[i].epoch, now) == KeyAt(hkdf, written, run[i].epoch, earlier)
            <==> m.epoch < Dkr.CAPACITY && hkdf(TokenOf(run[i]), info) == hkdf(run[i].transport, info)
  {
    RunPrefix(run, i + 1);
    CurrentEpoch(run);
    assert run[i].epoch < run[|run| - 1].epoch;
    KeyInForce(hkdf, run[..i + 1], earlier);
    KeyLater(hkdf, run, i, now);
  }

  /** And for the current epoch: two derivations by the same device agree if and only if the
      epoch lies in the first segment or the two fresh draws derive the same key. */
  lemma CurrentReadableIff(hkdf: Kdf, run: seq<Event>, earlier: Draws, now: Draws)
    requires GroupRun(run)
    ensures var m := MaterialAfter(run);
            var info := Dkr.Info(m.epoch);
            && m.epoch == run[|run| - 1].epoch
            && (KeyAt(hkdf, m, m.epoch, now) == KeyAt(hkdf, m, m.epoch, earlier)
                <==> m.epoch < Dkr.CAPACITY || hkdf(now.segment, info) == hkdf(earlier.segment, info))
  {
    CurrentEpoch(run);
    KeyInForce(hkdf, run, earlier);
    KeyInForce(hkdf, run, now);
  }

  lemma CurrentEpoch(run: seq<Event>)
    requires GroupRun(run)
    ensures MaterialAfter(run).epoch == run[|run| - 1].epoch
  {
    RunRetains(run);
  }

  /** Rotation orphans nothing: after any run of rotations and full-history invitations in
      the first segment, every superseded epoch is read with its own key. */
  lemma RotationOrphansNothing(hkdf: Kdf, run: seq<Event>, i: nat, earlier: Draws, now: Draws)
    requires GroupRun(run) && i < |run| - 1 && run[|run| - 1].epoch < Dkr.CAPACITY
    requires run[i].kind != InviteForwardOnly
    ensures GroupRun(run[..i + 1])
    ensures KeyAt(hkdf, MaterialAfter(run), run[i].epoch, now)
         == KeyAt(hkdf, MaterialAfter(run[..i + 1]), run[i].epoch, earlier)
  {
    assert run[i].epoch < run[|run| - 1].epoch;
    CurrentEpoch(run);
    TokenIsSet(run[i]);
    ReadableIff(hkdf, run, i, earlier, now);
  }

  /** A key derivation for the example: the first 32 bytes of the seed. */
  function FirstBytes(seed: Bytes, info: Bytes): Bytes32 {
    if |seed| < 32 then Zeros(32) else seed[..32]
  }

  function Repeated(b: byte): Bytes48 { seq(48, _ => b) }

  /** Bootstrap, a forward-only invitation, a rotation. */
  function InviteThenRotate(): seq<Event> {
    var draws := Draws(Repeated(3), Repeated(2));
    [Event(Bootstrap, 0, Repeated(1), Zeros(32), draws), Event(InviteForwardOnly, 1, Repeated(1), Zeros(32), draws),
     Event(Rotate, 2, Repeated(1), Zeros(32), draws)]
  }

  lemma ExampleIsRun()
    ensures GroupRun(InviteThenRotate())
  {
    assert Dkr.ZERO_SEED[0] == 0 && Repeated(1)[0] == 1 && Repeated(2)[0] == 2 && Repeated(3)[0] == 3;
  }

  /** A forward-only invitation followed by a rotation loses the epoch in between: the
      material keeps that epoch's transport seed, but its heads were sealed under the
      invitation's fresh token. */
  lemma ForwardOnlyInviteThenRotateOrphans(d: Draws)
    ensures var run := InviteThenRotate();
            && GroupRun(run) && GroupRun(run[..2])
            && KeyAt(FirstBytes, MaterialAfter(run[..2]), 1, d).Ok?
            && KeyAt(FirstBytes, MaterialAfter(run), 1, d) != KeyAt(FirstBytes, MaterialAfter(run[..2]), 1, d)
  {
    var run := InviteThenRotate();
    ExampleIsRun();
    RunPrefix(run, 2);
    ReadableIff(FirstBytes, run, 1, d, d);
    KeyInForce(FirstBytes, run[..2], d);
    assert FirstBytes(Repeated(1), Dkr.Info(1))[0] == 1 && FirstBytes(Repeated(2), Dkr.Info(1))[0] == 2;
  }

  /** Past the first segment a head cannot be read back by the device that just sealed it:
      a group bootstrapped at epoch 2^20 derives two keys in two calls. */
  lemma NewSegmentOrphansCurrentEpoch()
    ensures var draws := Draws(Repeated(3), Repeated(2));
            var run := [Event(Bootstrap, Dkr.CAPACITY, Repeated(1), Zeros(32), draws)];
            && GroupRun(run)
            && KeyAt(FirstBytes, MaterialAfter(run), Dkr.CAPACITY, Draws(Repeated(3), Repeated(4)))
               != KeyAt(FirstBytes, MaterialAfter(run), Dkr.CAPACITY, Draws(Repeated(3), Repeated(5)))
  {
    var run := [Event(Bootstrap, Dkr.CAPACITY, Repeated(1), Zeros(32), Draws(Repeated(3), Repeated(2)))];
    ExampleIsRun();
    assert run[0].transport == InviteThenRotate()[0].transport && run[0].draws == InviteThenRotate()[0].draws;
    CurrentReadableIff(FirstBytes, run, Draws(Repeated(3), Repeated(5)), Draws(Repeated(3), Repeated(4)));
    var info := Dkr.Info(Dkr.CAPACITY);
    assert FirstBytes(Repeated(4), info)[0] == 4 && FirstBytes(Repeated(5), info)[0] == 5;
  }

  // ---- Joiners ---------------------------------------------------------------------------------------------------

  /** A full-grant joiner holds exactly what the admin holds. */
  lemma FullJoinerAgrees(run: seq<Event>)
    requires GroupRun(run) && run[|run| - 1].kind == InviteFull
    ensures var last := run[|run| - 1];
            Joined(last.epoch, last.transport, last.refsMac, GrantFor(MaterialAfter(run), false)) == MaterialAfter(run)
  {
    RunRetains(run);
  }

  /** A forward-only joiner reads nothing before its join epoch, and its material holds no seed
      and no MAC key of any other epoch. */
  lemma ForwardOnlyJoinerReadsNothingEarlier(hkdf: Kdf, run: seq<Event>, epoch: u64, d: Draws)
    requires GroupRun(run) && epoch < run[|run| - 1].epoch
    ensures var last := run[|run| - 1];
            var j := Joined(last.epoch, last.transport, last.refsMac, GrantFor(MaterialAfter(run), true));
            && KeyAt(hkdf, j, epoch, d) == Err(BeforeGrant) && RefsMacAt(j, epoch) == None
            && j.historyFrom == last.epoch
            && forall e :: e !in j.priorTransport && e !in j.priorRefsMac
  {
    CurrentEpoch(run);
  }

  /** The token it is given is the one drawn for its own invitation. */
  lemma ForwardOnlyTokenIsDrawn(run: seq<Event>)
    requires GroupRun(run) && run[|run| - 1].kind == InviteForwardOnly
    ensures var last := run[|run| - 1];
            var j := Joined(last.epoch, last.transport, last.refsMac, GrantFor(MaterialAfter(run), true));
            j.dkrToken == last.draws.segment && j.transport == last.transport && j.refsMac == last.refsMac
  {
    RunRetains(run);
  }

  /** At its join epoch it holds the admin's key and MAC key. */
  lemma ForwardOnlyJoinerAgrees(hkdf: Kdf, run: seq<Event>, admin: Draws, joiner: Draws)
    requires GroupRun(run) && run[|run| - 1].epoch < Dkr.CAPACITY
    ensures var last, m := run[|run| - 1], MaterialAfter(run);
            var j := Joined(last.epoch, last.transport, last.refsMac, GrantFor(m, true));
            && KeyAt(hkdf, j, last.epoch, joiner) == KeyAt(hkdf, m, last.epoch, admin)
            && RefsMacAt(j, last.epoch) == RefsMacAt(m, last.epoch)
  {
    RunRetains(run);
    var last, m := run[|run| - 1], MaterialAfter(run);
    TokenIsSet(last);
    CurrentKey(hkdf, m, admin);
    CurrentKey(hkdf, Joined(last.epoch, last.transport, last.refsMac, GrantFor(m, true)), joiner);
  }
}
