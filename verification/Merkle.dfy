/** The Merkle tree over logical leaves. An odd level duplicates its last node. */
module Merkle {
  import opened Bytes
  import opened Primitives

  type NodeFn = (Digest, Digest) -> Digest

  datatype Step = Step(sibling: Digest, siblingRight: bool)

  datatype Path = Path(index: nat, steps: seq<Step>)

  function Pair(level: seq<Digest>, i: nat): (Digest, Digest)
    requires 2 * i < |level|
  {
    (level[2 * i], if 2 * i + 1 < |level| then level[2 * i + 1] else level[2 * i])
  }

  function NodeOf(node: NodeFn, p: (Digest, Digest)): Digest { node(p.0, p.1) }

  function Up(node: NodeFn, level: seq<Digest>): (next: seq<Digest>)
    ensures |next| == (|level| + 1) / 2
    ensures forall i :: 0 <= i < |next| ==> next[i] == NodeOf(node, Pair(level, i))
  {
    seq<Digest>((|level| + 1) / 2, i requires 0 <= i < (|level| + 1) / 2 => NodeOf(node, Pair(level, i)))
  }

  function Root(node: NodeFn, empty: Digest, level: seq<Digest>): Digest
    decreases |level|
  {
    if level == [] then empty else if |level| == 1 then level[0] else Root(node, empty, Up(node, level))
  }

  function StepAt(level: seq<Digest>, i: nat): Step
    requires i < |level|
  {
    if i % 2 == 0 then Step(if i + 1 < |level| then level[i + 1] else level[i], true)
    else Step(level[i - 1], false)
  }

  function Steps(node: NodeFn, level: seq<Digest>, i: nat): seq<Step>
    requires i < |level|
    decreases |level|
  {
    if |level| == 1 then [] else [StepAt(level, i)] + Steps(node, Up(node, level), i / 2)
  }

  function StepPair(x: Digest, s: Step): (Digest, Digest) {
    if s.siblingRight then (x, s.sibling) else (s.sibling, x)
  }

  function Climb(node: NodeFn, x: Digest, steps: seq<Step>): Digest
    decreases |steps|
  {
    if steps == [] then x else Climb(node, NodeOf(node, StepPair(x, steps[0])), steps[1..])
  }

  /** Two by two, a level is replaced by its parents; a last node without a partner is hashed
      with itself. One node left is the root. */
  lemma RootOfLevel(node: NodeFn, empty: Digest, level: seq<Digest>) returns (parents: seq<Digest>)
    requires |level| > 1
    ensures |parents| == (|level| + 1) / 2 && Root(node, empty, level) == Root(node, empty, parents)
    ensures forall i :: 0 <= i < |level| / 2 ==> parents[i] == node(level[2 * i], level[2 * i + 1])
    ensures |level| % 2 == 1 ==> parents[|level| / 2] == node(level[|level| - 1], level[|level| - 1])
    ensures forall x :: Root(node, empty, [x]) == x
    ensures Root(node, empty, []) == empty
  {
    parents := Up(node, level);
  }

  // ---- The loops -----------------------------------------------------------------------

  method NextLevel(node: NodeFn, level: seq<Digest>) returns (next: seq<Digest>)
    ensures next == Up(node, level)
  {
    next := [];
    var at := 0;
    while at < |level|
      invariant at <= |level| + 1 && at == 2 * |next|
      invariant next == Up(node, level)[..|next|]
    {
      var right := if at + 1 < |level| then level[at + 1] else level[at];
      assert Pair(level, |next|) == (level[at], right);
      next := next + [node(level[at], right)];
      at := at + 2;
    }
  }

  method MerkleRoot(node: NodeFn, empty: Digest, leaves: seq<Digest>) returns (root: Digest)
    ensures root == Root(node, empty, leaves)
  {
    if leaves == [] { return empty; }
    var level := leaves;
    while |level| > 1
      invariant level != [] && Root(node, empty, level) == Root(node, empty, leaves)
      decreases |level|
    {
      level := NextLevel(node, level);
    }
    root := level[0];
  }

  method SiblingStep(level: seq<Digest>, i: nat) returns (s: Step)
    requires i < |level|
    ensures s == StepAt(level, i)
  {
    var siblingRight := i % 2 == 0;
    var siblingIdx: nat := if siblingRight then i + 1 else i - 1;
    var sibling := if siblingIdx < |level| then level[siblingIdx] else level[i];
    s := Step(sibling, siblingRight);
  }

  lemma StepsUnfold(node: NodeFn, before: seq<Step>, level: seq<Digest>, i: nat)
    requires i < |level| && |level| > 1
    ensures before + Steps(node, level, i) == before + [StepAt(level, i)] + Steps(node, Up(node, level), i / 2)
  {
  }

  method MerklePath(node: NodeFn, leaves: seq<Digest>, index: nat) returns (r: Option<Path>)
    ensures r == if index < |leaves| then Some(Path(index, Steps(node, leaves, index))) else None
  {
    if index >= |leaves| { return None; }
    var steps: seq<Step> := [];
    var level := leaves;
    var i: nat := index;
    while |level| > 1
      invariant 0 <= i < |level| && steps + Steps(node, level, i) == Steps(node, leaves, index)
      decreases |level|
    {
      var step := SiblingStep(level, i);
      StepsUnfold(node, steps, level, i);
      steps := steps + [step];
      level := NextLevel(node, level);
      i := i / 2;
    }
    assert steps + [] == steps;
    r := Some(Path(index, steps));
  }

  method MerkleRootFromPath(node: NodeFn, leaf: Digest, path: Path) returns (root: Digest)
    ensures root == Climb(node, leaf, path.steps)
  {
    root := leaf;
    var k := 0;
    assert path.steps[0..] == path.steps;
    while k < |path.steps|
      invariant k <= |path.steps| && Climb(node, root, path.steps[k..]) == Climb(node, leaf, path.steps)
    {
      var step := path.steps[k];
      assert path.steps[k..][1..] == path.steps[k + 1..];
      root := if step.siblingRight then node(root, step.sibling) else node(step.sibling, root);
      k := k + 1;
    }
  }

  // ---- Completeness ----------------------------------------------------------------------

  /** Every leaf climbs to the root along its own path, odd levels included. */
  lemma {:induction false} PathsReachRoot(node: NodeFn, empty: Digest, level: seq<Digest>, i: nat)
    requires i < |level|
    ensures Climb(node, level[i], Steps(node, level, i)) == Root(node, empty, level)
    decreases |level|
  {
    if |level| > 1 {
      var next := Up(node, level);
      assert StepPair(level[i], StepAt(level, i)) == Pair(level, i / 2);
      assert Steps(node, level, i)[1..] == Steps(node, next, i / 2);
      PathsReachRoot(node, empty, next, i / 2);
    }
  }

  // ---- Soundness ---------------------------------------------------------------------------

  /** The pairs hashed while building the tree, and while climbing a path. */
  function LevelPairs(level: seq<Digest>): set<(Digest, Digest)> {
    set i | 0 <= i < (|level| + 1) / 2 :: Pair(level, i)
  }

  function TreePairs(node: NodeFn, level: seq<Digest>): set<(Digest, Digest)>
    decreases |level|
  {
    if |level| <= 1 then {} else LevelPairs(level) + TreePairs(node, Up(node, level))
  }

  function PathPairs(node: NodeFn, x: Digest, steps: seq<Step>): set<(Digest, Digest)>
    decreases |steps|
  {
    if steps == [] then {} else
      var p := StepPair(x, steps[0]);
      {p} + PathPairs(node, NodeOf(node, p), steps[1..])
  }

  /** `v` is the hash of a pair of `pairs`. */
  ghost predicate IsNode(node: NodeFn, pairs: set<(Digest, Digest)>, v: Digest) {
    exists p :: p in pairs && NodeOf(node, p) == v
  }

  ghost predicate PairsInjective(node: NodeFn, pairs: set<(Digest, Digest)>) {
    forall p, q :: p in pairs && q in pairs && NodeOf(node, p) == NodeOf(node, q) ==> p == q
  }

  lemma {:induction false} RootIsNode(node: NodeFn, empty: Digest, level: seq<Digest>)
    requires |level| > 1
    ensures IsNode(node, TreePairs(node, level), Root(node, empty, level))
    decreases |level|
  {
    var next := Up(node, level);
    if |next| > 1 {
      RootIsNode(node, empty, next);
      var p :| p in TreePairs(node, next) && NodeOf(node, p) == Root(node, empty, next);
      assert p in TreePairs(node, level);
    } else {
      assert Pair(level, 0) in LevelPairs(level) && Pair(level, 0) in TreePairs(node, level);
      assert Root(node, empty, level) == next[0];
    }
  }

  /** What a tree pair is made of: members of the level it was built on, or nodes. */
  lemma {:induction false} TreePairParts(node: NodeFn, level: seq<Digest>, p: (Digest, Digest), v: Digest)
    requires p in TreePairs(node, level) && (v == p.0 || v == p.1)
    ensures v in level || IsNode(node, TreePairs(node, level), v)
    decreases |level|
  {
    if p !in LevelPairs(level) {
      var next := Up(node, level);
      TreePairParts(node, next, p, v);
      if v in next {
        var i :| 0 <= i < |next| && next[i] == v;
        assert Pair(level, i) in LevelPairs(level);
      } else {
        var q :| q in TreePairs(node, next) && NodeOf(node, q) == v;
        assert q in TreePairs(node, level);
      }
    }
  }

  /** `v` arrives somewhere along the climb from `y`. */
  ghost predicate Arrives(node: NodeFn, y: Digest, steps: seq<Step>, v: Digest) {
    v == y || IsNode(node, PathPairs(node, y, steps), v)
  }

  lemma NodeOfRest(node: NodeFn, x: Digest, steps: seq<Step>, v: Digest)
    requires steps != []
    requires Arrives(node, NodeOf(node, StepPair(x, steps[0])), steps[1..], v)
    ensures IsNode(node, PathPairs(node, x, steps), v)
  {
    var p := StepPair(x, steps[0]);
    assert p in PathPairs(node, x, steps);
    if v != NodeOf(node, p) {
      var r :| r in PathPairs(node, NodeOf(node, p), steps[1..]) && NodeOf(node, r) == v;
      assert r in PathPairs(node, x, steps);
    }
  }

  /** Each pair hashed along a path contains the value that arrived there. */
  lemma {:induction false} PathPairCarries(node: NodeFn, y: Digest, steps: seq<Step>, q: (Digest, Digest))
    requires q in PathPairs(node, y, steps)
    ensures Arrives(node, y, steps, q.0) || Arrives(node, y, steps, q.1)
    decreases |steps|
  {
    var p := StepPair(y, steps[0]);
    if q != p {
      var z := NodeOf(node, p);
      PathPairCarries(node, z, steps[1..], q);
      if Arrives(node, z, steps[1..], q.0) { NodeOfRest(node, y, steps, q.0); }
      else { NodeOfRest(node, y, steps, q.1); }
    }
  }

  /** A path of any length and any directions that reaches the root starts at a leaf,
      or stops at an inner node (too short), or passes through a leaf (too long). */
  lemma {:induction false} PathStartsInTree(node: NodeFn, empty: Digest, level: seq<Digest>, x: Digest,
                                            steps: seq<Step>)
    requires level != [] && Climb(node, x, steps) == Root(node, empty, level)
    requires PairsInjective(node, TreePairs(node, level) + PathPairs(node, x, steps))
    ensures x in level || IsNode(node, TreePairs(node, level), x)
            || exists v :: v in level && IsNode(node, PathPairs(node, x, steps), v)
    decreases |level|
  {
    if steps == [] {
      if |level| > 1 { RootIsNode(node, empty, level); }
    } else if |level| == 1 {
      ClimbIsNode(node, x, steps);
      assert level[0] in level;
    } else {
      var p := StepPair(x, steps[0]);
      var y, next, rest := NodeOf(node, p), Up(node, level), steps[1..];
      assert TreePairs(node, next) + PathPairs(node, y, rest) <= TreePairs(node, level) + PathPairs(node, x, steps);
      PathStartsInTree(node, empty, next, y, rest);
      if y in next {
        var i :| 0 <= i < |next| && next[i] == y;
        assert Pair(level, i) in LevelPairs(level);
      } else if IsNode(node, TreePairs(node, next), y) {
        var q :| q in TreePairs(node, next) && NodeOf(node, q) == y;
        assert p == q && q in TreePairs(node, level);
        TreePairParts(node, level, q, x);
      } else {
        var z :| z in next && IsNode(node, PathPairs(node, y, rest), z);
        PassesThroughLeaf(node, level, x, steps, z);
      }
    }
  }

  lemma {:induction false} ClimbIsNode(node: NodeFn, x: Digest, steps: seq<Step>)
    requires steps != []
    ensures IsNode(node, PathPairs(node, x, steps), Climb(node, x, steps))
    decreases |steps|
  {
    var y := NodeOf(node, StepPair(x, steps[0]));
    if |steps| > 1 {
      ClimbIsNode(node, y, steps[1..]);
    } else {
      assert Climb(node, y, steps[1..]) == y;
    }
    NodeOfRest(node, x, steps, Climb(node, x, steps));
  }

  lemma ParentOf(node: NodeFn, level: seq<Digest>, z: Digest) returns (i: nat)
    requires z in Up(node, level)
    ensures 2 * i < |level| && NodeOf(node, Pair(level, i)) == z && Pair(level, i) in LevelPairs(level)
  {
    i :| 0 <= i < |Up(node, level)| && Up(node, level)[i] == z;
  }

  /** A path that hashes into a parent hashes one of its children on the way. */
  lemma PassesThroughLeaf(node: NodeFn, level: seq<Digest>, x: Digest, steps: seq<Step>, z: Digest)
    requires |level| > 1 && steps != [] && z in Up(node, level)
    requires PairsInjective(node, TreePairs(node, level) + PathPairs(node, x, steps))
    requires IsNode(node, PathPairs(node, NodeOf(node, StepPair(x, steps[0])), steps[1..]), z)
    ensures exists v :: v in level && IsNode(node, PathPairs(node, x, steps), v)
  {
    var y, rest := NodeOf(node, StepPair(x, steps[0])), steps[1..];
    var q :| q in PathPairs(node, y, rest) && NodeOf(node, q) == z;
    var i := ParentOf(node, level, z);
    assert q in PathPairs(node, x, steps) && Pair(level, i) in TreePairs(node, level);
    assert q == Pair(level, i);
    PathPairCarries(node, y, rest, q);
    var v := if Arrives(node, y, rest, q.0) then q.0 else q.1;
    NodeOfRest(node, x, steps, v);
    assert v in level;
  }
}
