/** The three-way ref merge a push performs before every compare-and-swap attempt. */
module Reconcile {
  import opened Primitives

  /** Ref name to object id. */
  type Refs = map<string, string>

  datatype RaceError = RemoteAdvanced

  function Intended(baseline: Refs, caller: Refs): Refs {
    map k | k in caller && !(k in baseline && baseline[k] == caller[k]) :: caller[k]
  }

  function Deleted(baseline: Refs, caller: Refs): set<string> { baseline.Keys - caller.Keys }

  predicate Races(baseline: Refs, intended: Refs, remote: Refs, k: string)
    requires k in intended
  {
    && k in remote
    && (k in baseline ==> baseline[k] != remote[k])
    && remote[k] != intended[k]
  }

  function Merge(baseline: Refs, caller: Refs, remote: Refs, allowNonFf: bool): Result<Refs, RaceError> {
    var intended := Intended(baseline, caller);
    if !allowNonFf && exists k :: k in intended && Races(baseline, intended, remote, k) then
      Err(RemoteAdvanced)
    else if allowNonFf then
      Ok((remote + intended) - Deleted(baseline, caller))
    else
      Ok(remote + intended)
  }

  method CollectIntended(baseline: Refs, caller: Refs) returns (intended: Refs)
    ensures intended == Intended(baseline, caller)
  {
    intended := map[];
    var todo := caller.Keys;
    while todo != {}
      invariant todo <= caller.Keys
      invariant forall k :: k in intended <==> k in Intended(baseline, caller) && k !in todo
      invariant forall k :: k in intended ==> intended[k] == caller[k]
      decreases todo
    {
      var k :| k in todo;
      if !(k in baseline && baseline[k] == caller[k]) {
        intended := intended[k := caller[k]];
      }
      todo := todo - {k};
    }
  }

  method CollectDeleted(baseline: Refs, caller: Refs) returns (deleted: set<string>)
    ensures deleted == Deleted(baseline, caller)
  {
    deleted := {};
    var todo := baseline.Keys;
    while todo != {}
      invariant todo <= baseline.Keys
      invariant deleted == Deleted(baseline, caller) - todo
      decreases todo
    {
      var k :| k in todo;
      if k !in caller { deleted := deleted + {k}; }
      todo := todo - {k};
    }
  }

  method FindRace(baseline: Refs, intended: Refs, remote: Refs) returns (raced: bool)
    ensures raced <==> exists k :: k in intended && Races(baseline, intended, remote, k)
  {
    var todo := intended.Keys;
    while todo != {}
      invariant todo <= intended.Keys
      invariant forall k :: k in intended && k !in todo ==> !Races(baseline, intended, remote, k)
      decreases todo
    {
      var k :| k in todo;
      if k in remote {
        var remoteMoved := k !in baseline || baseline[k] != remote[k];
        if remoteMoved && remote[k] != intended[k] {
          assert Races(baseline, intended, remote, k);
          return true;
        }
      }
      todo := todo - {k};
    }
    return false;
  }

  /** The merge as the client runs it. */
  method ReconcileRefs(baseline: Refs, caller: Refs, remote: Refs, allowNonFf: bool)
    returns (r: Result<Refs, RaceError>)
    ensures r == Merge(baseline, caller, remote, allowNonFf)
  {
    var intended := CollectIntended(baseline, caller);
    var deleted := CollectDeleted(baseline, caller);
    if !allowNonFf {
      var raced := FindRace(baseline, intended, remote);
      if raced { return Err(RemoteAdvanced); }
    }
    var merged := remote;
    var todo := intended.Keys;
    while todo != {}
      invariant todo <= intended.Keys
      invariant merged.Keys == remote.Keys + (intended.Keys - todo)
      invariant forall k :: k in merged ==>
                  merged[k] == if k in intended && k !in todo then intended[k] else remote[k]
      decreases todo
    {
      var k :| k in todo;
      merged := merged[k := intended[k]];
      todo := todo - {k};
    }
    assert merged == remote + intended;
    if allowNonFf {
      todo := deleted;
      while todo != {}
        invariant todo <= deleted
        invariant merged == (remote + intended) - (deleted - todo)
        decreases todo
      {
        var k :| k in todo;
        merged := merged - {k};
        todo := todo - {k};
      }
      assert deleted - todo == deleted;
    }
    r := Ok(merged);
  }

  // ---- One ref at a time -------------------------------------------------------

  function At(m: Refs, k: string): Option<string> { if k in m then Some(m[k]) else None }

  /** Three-way merge of a single ref: what the push leaves it at, or `None` for a race.
      A ref the caller left alone follows the remote. A write goes through when the
      remote is absent, still at the baseline, already at the new value, or overruled.
      Only an overruling push deletes. */
  function MergeOne(base: Option<string>, mine: Option<string>, theirs: Option<string>, overrule: bool)
    : Option<Option<string>>
  {
    if mine == base then Some(theirs)
    else if mine.None? then Some(if overrule then None else theirs)
    else if overrule || theirs.None? || theirs == base || theirs == mine then Some(mine)
    else None
  }

  function MergeAt(baseline: Refs, caller: Refs, remote: Refs, allowNonFf: bool, k: string): Option<Option<string>> {
    MergeOne(At(baseline, k), At(caller, k), At(remote, k), allowNonFf)
  }

  /** The map merge is exactly the per-ref merge of every name. */
  lemma MergesPerRef(baseline: Refs, caller: Refs, remote: Refs, allowNonFf: bool)
    ensures var r := Merge(baseline, caller, remote, allowNonFf);
            && (r.Ok? <==> forall k :: MergeAt(baseline, caller, remote, allowNonFf, k).Some?)
            && (r.Ok? ==> forall k :: Some(At(r.value, k)) == MergeAt(baseline, caller, remote, allowNonFf, k))
  {
    var intended := Intended(baseline, caller);
    forall k
      ensures MergeAt(baseline, caller, remote, allowNonFf, k).None? <==>
              !allowNonFf && k in intended && Races(baseline, intended, remote, k)
    {
    }
  }

  /** A push is refused if and only if it is not forced and some ref that its caller set anew has
      moved on the remote, to neither the value that the caller read nor the one it wants. */
  lemma RacedIff(baseline: Refs, caller: Refs, remote: Refs, allowNonFf: bool)
    ensures Merge(baseline, caller, remote, allowNonFf).Err? <==>
              && !allowNonFf
              && exists k :: && k in caller && (k !in baseline || caller[k] != baseline[k])
                             && k in remote && (k !in baseline || remote[k] != baseline[k]) && remote[k] != caller[k]
  {
    var intended := Intended(baseline, caller);
    forall k
      ensures k in intended && Races(baseline, intended, remote, k) <==>
              && k in caller && (k !in baseline || caller[k] != baseline[k])
              && k in remote && (k !in baseline || remote[k] != baseline[k]) && remote[k] != caller[k]
    {
    }
  }

  /** What a merge holds, ref by ref: the caller's value where it set one anew, nothing where it
      deleted by force, and the remote's value, or absence, everywhere else. */
  lemma MergedValues(baseline: Refs, caller: Refs, remote: Refs, allowNonFf: bool, k: string)
    requires Merge(baseline, caller, remote, allowNonFf).Ok?
    ensures var m := Merge(baseline, caller, remote, allowNonFf).value;
            var wrote := k in caller && (k !in baseline || caller[k] != baseline[k]);
            var dropped := allowNonFf && k in baseline && k !in caller;
            && (wrote ==> k in m && m[k] == caller[k])
            && (dropped ==> k !in m)
            && (!wrote && !dropped ==> (k in m <==> k in remote) && (k in m ==> m[k] == remote[k]))
  {
    MergesPerRef(baseline, caller, remote, allowNonFf);
    assert MergeAt(baseline, caller, remote, allowNonFf, k)
        == Some(At(Merge(baseline, caller, remote, allowNonFf).value, k));
  }

  /** A merge is determined by its per-ref lookups. */
  lemma SameRefs(m: Refs, n: Refs)
    requires forall k :: At(m, k) == At(n, k)
    ensures m == n
  {
    forall k
      ensures k in m <==> k in n
      ensures k in m ==> m[k] == n[k]
    {
      assert At(m, k) == At(n, k);
    }
  }

  lemma MergedIs(baseline: Refs, caller: Refs, remote: Refs, allowNonFf: bool, m: Refs)
    requires forall k :: MergeAt(baseline, caller, remote, allowNonFf, k) == Some(At(m, k))
    ensures Merge(baseline, caller, remote, allowNonFf) == Ok(m)
  {
    MergesPerRef(baseline, caller, remote, allowNonFf);
    SameRefs(m, Merge(baseline, caller, remote, allowNonFf).value);
  }

  /** Reconciling a second time against the merge's own result changes nothing. */
  lemma MergeIdempotent(baseline: Refs, caller: Refs, remote: Refs, allowNonFf: bool, m: Refs)
    requires Merge(baseline, caller, remote, allowNonFf) == Ok(m)
    ensures Merge(baseline, caller, m, allowNonFf) == Ok(m)
  {
    MergesPerRef(baseline, caller, remote, allowNonFf);
    MergedIs(baseline, caller, m, allowNonFf, m);
  }

  /** The refs a push can change: those it writes, and those it deletes if it overrules. */
  ghost predicate Touches(baseline: Refs, caller: Refs, overrule: bool, k: string) {
    At(baseline, k) != At(caller, k) && (At(caller, k).Some? || overrule)
  }

  /** On one ref, of which at most one of two pushes can change anything. */
  lemma OneRefCommutes(b1: Option<string>, c1: Option<string>, f1: bool, b2: Option<string>, c2: Option<string>,
                       f2: bool, theirs: Option<string>)
    requires !(b1 != c1 && (c1.Some? || f1)) || !(b2 != c2 && (c2.Some? || f2))
    requires MergeOne(b1, c1, theirs, f1).Some? && MergeOne(b2, c2, MergeOne(b1, c1, theirs, f1).value, f2).Some?
    ensures var m2 := MergeOne(b2, c2, theirs, f2);
            m2.Some? && MergeOne(b1, c1, m2.value, f1) == MergeOne(b2, c2, MergeOne(b1, c1, theirs, f1).value, f2)
  {
  }

  /** Two pushes that touch different refs commute: if one order succeeds so does the
      other, and the final map is the same. Deletions that an ordinary push asks for touch
      nothing. */
  lemma MergesCommute(b1: Refs, c1: Refs, f1: bool, b2: Refs, c2: Refs, f2: bool, remote: Refs, m1: Refs, m12: Refs)
    requires forall k :: !(Touches(b1, c1, f1, k) && Touches(b2, c2, f2, k))
    requires Merge(b1, c1, remote, f1) == Ok(m1)
    requires Merge(b2, c2, m1, f2) == Ok(m12)
    ensures var m2 := Merge(b2, c2, remote, f2);
            m2.Ok? && Merge(b1, c1, m2.value, f1) == Ok(m12)
  {
    MergesPerRef(b1, c1, remote, f1);
    MergesPerRef(b2, c2, m1, f2);
    MergesPerRef(b2, c2, remote, f2);
    forall k
      ensures MergeAt(b2, c2, remote, f2, k).Some?
      ensures MergeOne(At(b1, k), At(c1, k), MergeAt(b2, c2, remote, f2, k).value, f1) == Some(At(m12, k))
    {
      assert !(Touches(b1, c1, f1, k) && Touches(b2, c2, f2, k));
      assert MergeAt(b2, c2, m1, f2, k) == Some(At(m12, k)) && MergeAt(b1, c1, remote, f1, k) == Some(At(m1, k));
      OneRefCommutes(At(b1, k), At(c1, k), f1, At(b2, k), At(c2, k), f2, At(remote, k));
    }
    var m2 := Merge(b2, c2, remote, f2).value;
    forall k
      ensures MergeAt(b1, c1, m2, f1, k) == Some(At(m12, k))
    {
      assert MergeAt(b2, c2, remote, f2, k) == Some(At(m2, k));
    }
    MergedIs(b1, c1, m2, f1, m12);
  }

  /** With no race at all, a forced push publishes exactly the caller's map and an
      ordinary one the caller's map over the baseline: it never deletes, so it publishes
      the caller's map exactly when the caller asked for no deletion. */
  lemma MergeUnraced(baseline: Refs, caller: Refs)
    ensures Merge(baseline, caller, baseline, true) == Ok(caller)
    ensures Merge(baseline, caller, baseline, false) == Ok(baseline + caller)
    ensures Merge(baseline, caller, baseline, false) == Ok(caller) <==> baseline.Keys <= caller.Keys
  {
    MergedIs(baseline, caller, baseline, true, caller);
    MergedIs(baseline, caller, baseline, false, baseline + caller);
    assert baseline.Keys <= caller.Keys ==> baseline + caller == caller;
    assert baseline.Keys <= (baseline + caller).Keys;
  }
}
