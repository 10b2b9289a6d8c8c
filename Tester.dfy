/** The interactive tester: it owns the node list and the solver settings,
    and edits them through its buttons and sliders (build, append, delete with
    reparenting, length edit, iteration counter), then runs the selected
    solver once per frame. */
module Tester {
  import opened UnityMath
  import opened IKSys

  /** The length a node gets when it is appended to a non-empty chain. */
  const DefDiamondLen: real := 2.0
  /** The early-exit distance the tester passes to the solvers. */
  const SolveEps: real := 0.001
  /** The bounds the "-" and "+" buttons keep the iteration count in. */
  const MinIterations: int := 2
  const MaxIterations: int := 50
  /** The bounds of the per-node length slider. */
  const MinLen: real := 0.5
  const MaxLen: real := 10.0

  /** A deferred structural edit, run at the end of the GUI passes. Only joint
      indices 1.. are ever offered for removal. */
  type JointIndex = i: nat | i >= 1 witness 1
  datatype PostOp = RemoveNode(rmIdx: JointIndex)

  // ---------------------------------------------------------------------------
  // The list edits as functions of the list

  /** AddNode on the list: a parentless root with the given length on an empty
      list, otherwise a new end-effector hanging off the old last node. */
  function Appended(c: seq<Node>, len: real, id: nat): seq<Node> {
    if |c| == 0 then [Node(id, None, Identity, Zero, len)]
    else
      var prevLast := c[|c| - 1];
      c + [Node(id, Some(prevLast.id), Identity, Forward(prevLast.len), DefDiamondLen)]
  }

  /** Every object identity used in c is below bound. */
  ghost predicate IdsBelow(c: seq<Node>, bound: nat) {
    forall k :: 0 <= k < |c| ==> c[k].id < bound
  }

  /** Appending keeps every earlier node, adds exactly one, and keeps the
      structural invariant when the new identity is fresh. */
  lemma AppendedContract(c: seq<Node>, len: real, id: nat)
    ensures var r := Appended(c, len, id);
      && |r| == |c| + 1
      && r[..|c|] == c
      && r[|c|].id == id && r[|c|].localRot == Identity
      && (|c| == 0 ==> r[0].parent == None && r[0].localPos == Zero && r[0].len == len)
      && (|c| > 0 ==> r[|c|].parent == Some(c[|c| - 1].id)
                      && r[|c|].localPos == Forward(c[|c| - 1].len)
                      && r[|c|].len == DefDiamondLen)
      && (ChainValid(c) && IdsBelow(c, id) ==> ChainValid(r) && IdsBelow(r, id + 1))
  {
    var r := Appended(c, len, id);
    if ChainValid(c) && IdsBelow(c, id) {
      assert forall k :: 0 <= k < |c| ==> r[k] == c[k];
    }
  }

  /** The removal postOp on the list: RemoveAt(rmIdx), then the node now at
      rmIdx is hung off node rmIdx-1 at that node's length. Reparenting keeps
      the successor's world rotation, taken while the removed node is still
      its parent (destruction is deferred to the end of the frame). */
  function RemoveJoint(e: Engine, c: seq<Node>, rmIdx: nat): seq<Node>
    requires 1 <= rmIdx && rmIdx + 1 < |c|
  {
    var succWorld := WorldRot(e, c, rmIdx + 1);
    var after := c[..rmIdx] + c[rmIdx + 1..];
    var prev := after[rmIdx - 1];
    after[rmIdx := after[rmIdx].(parent := Some(prev.id),
                                 localRot := LocalFor(e, after, rmIdx, succWorld),
                                 localPos := Forward(prev.len))]
  }

  /** Removal deletes exactly element rmIdx; its successor gets node rmIdx-1
      as parent, the local rotation that keeps its old world rotation under
      that parent, and the local position (0, 0, len[rmIdx-1]). */
  lemma RemoveJointContract(e: Engine, c: seq<Node>, rmIdx: nat)
    requires 1 <= rmIdx && rmIdx + 1 < |c|
    ensures var r := RemoveJoint(e, c, rmIdx);
      && |r| == |c| - 1
      && r[..rmIdx] == c[..rmIdx]
      && r[rmIdx + 1..] == c[rmIdx + 2..]
      && r[rmIdx] == c[rmIdx + 1].(parent := Some(c[rmIdx - 1].id),
                                   localRot := e.compose(e.inverse(WorldRot(e, c, rmIdx - 1)), WorldRot(e, c, rmIdx + 1)),
                                   localPos := Forward(c[rmIdx - 1].len))
  {
    var r := RemoveJoint(e, c, rmIdx);
    var after := c[..rmIdx] + c[rmIdx + 1..];
    WorldRotPrefix(e, after, c, rmIdx - 1);
    assert forall k :: rmIdx < k < |r| ==> r[k] == c[k + 1];
  }

  /** Under the engine's inverse law every remaining node keeps its world
      rotation: nodes before rmIdx trivially, the successor by the rotation
      reparenting computes, and the nodes after it because their local
      rotations are unchanged. */
  lemma {:induction false} RemoveJointKeepsWorldRot(e: Engine, c: seq<Node>, rmIdx: nat, j: nat)
    requires InverseCancels(e)
    requires 1 <= rmIdx && rmIdx + 1 < |c| && j < |c| - 1
    ensures WorldRot(e, RemoveJoint(e, c, rmIdx), j) == WorldRot(e, c, if j < rmIdx then j else j + 1)
    decreases j
  {
    var r := RemoveJoint(e, c, rmIdx);
    RemoveJointContract(e, c, rmIdx);
    assert forall k :: 0 <= k < rmIdx ==> r[k] == c[k] by {
      forall k | 0 <= k < rmIdx ensures r[k] == c[k] {
        assert r[k] == r[..rmIdx][k];
      }
    }
    if j < rmIdx {
      WorldRotPrefix(e, r, c, j);
    } else if j == rmIdx {
      WorldRotPrefix(e, r, c, rmIdx - 1);
    } else {
      RemoveJointKeepsWorldRot(e, c, rmIdx, j - 1);
      assert r[j] == r[rmIdx + 1..][j - rmIdx - 1];
    }
  }

  /** Removal keeps the structural invariant and the fresh-identity bound. */
  lemma RemoveJointKeepsValid(e: Engine, c: seq<Node>, rmIdx: nat)
    requires 1 <= rmIdx && rmIdx + 1 < |c|
    ensures ChainValid(c) ==> ChainValid(RemoveJoint(e, c, rmIdx))
    ensures forall bound: nat :: IdsBelow(c, bound) ==> IdsBelow(RemoveJoint(e, c, rmIdx), bound)
  {
    RemoveJointContract(e, c, rmIdx);
    SkipOneKeepsValid(c, RemoveJoint(e, c, rmIdx), rmIdx);
  }

  /** Any list that drops element rmIdx of c and relinks its successor to
      node rmIdx-1 keeps the invariant and the identity bound. */
  lemma SkipOneKeepsValid(c: seq<Node>, r: seq<Node>, rmIdx: nat)
    requires 1 <= rmIdx && rmIdx + 1 < |c| && |r| == |c| - 1
    requires r[..rmIdx] == c[..rmIdx] && r[rmIdx + 1..] == c[rmIdx + 2..]
    requires r[rmIdx].id == c[rmIdx + 1].id && r[rmIdx].len == c[rmIdx + 1].len
    requires r[rmIdx].parent == Some(c[rmIdx - 1].id) && r[rmIdx].localPos == Forward(c[rmIdx - 1].len)
    ensures ChainValid(c) ==> ChainValid(r)
    ensures forall bound: nat :: IdsBelow(c, bound) ==> IdsBelow(r, bound)
  {
    assert forall k :: 0 <= k < rmIdx ==> r[k] == r[..rmIdx][k];
    assert forall k :: rmIdx < k < |r| ==> r[k] == r[rmIdx + 1..][k - rmIdx - 1];
    if ChainValid(c) {
      forall i | 1 <= i < |r|
        ensures r[i].parent == Some(r[i - 1].id) && r[i].localPos == Forward(r[i - 1].len)
      {
        if i < rmIdx {
          assert r[i] == c[i] && r[i - 1] == c[i - 1];
        } else if i == rmIdx {
          assert r[i - 1] == c[i - 1];
        } else {
          assert r[i] == c[i + 1];
        }
      }
      forall i, j | 0 <= i < j < |r|
        ensures r[i].id != r[j].id
      {
        var i' := if i < rmIdx then i else i + 1;
        var j' := if j < rmIdx then j else j + 1;
        assert r[i].id == c[i'].id && r[j].id == c[j'].id;
      }
    }
  }

  /** The sum of the bone lengths of a chain. */
  function TotalLen(c: seq<Node>): real {
    if c == [] then 0.0 else TotalLen(c[..|c| - 1]) + c[|c| - 1].len
  }

  lemma {:induction false} TotalLenConcat(a: seq<Node>, b: seq<Node>)
    ensures TotalLen(a + b) == TotalLen(a) + TotalLen(b)
    decreases |b|
  {
    if b == [] {
      assert a + b == a;
    } else {
      var n := |b| - 1;
      assert (a + b)[..|a + b| - 1] == a + b[..n];
      assert (a + b)[|a + b| - 1] == b[n];
      TotalLenConcat(a, b[..n]);
    }
  }

  lemma {:induction false} TotalLenSameLengths(a: seq<Node>, b: seq<Node>)
    requires |a| == |b| && forall k :: 0 <= k < |a| ==> a[k].len == b[k].len
    ensures TotalLen(a) == TotalLen(b)
    decreases |a|
  {
    if a != [] {
      TotalLenSameLengths(a[..|a| - 1], b[..|b| - 1]);
    }
  }

  /** The total splits at any index. */
  lemma TotalLenSplit(c: seq<Node>, i: nat)
    requires i <= |c|
    ensures TotalLen(c) == TotalLen(c[..i]) + TotalLen(c[i..])
  {
    assert c[..i] + c[i..] == c;
    TotalLenConcat(c[..i], c[i..]);
  }

  /** Removing a joint shortens the chain's total length by exactly that
      joint's length: every remaining bone keeps its own. */
  lemma RemoveJointTotalLen(e: Engine, c: seq<Node>, rmIdx: nat)
    requires 1 <= rmIdx && rmIdx + 1 < |c|
    ensures TotalLen(RemoveJoint(e, c, rmIdx)) == TotalLen(c) - c[rmIdx].len
  {
    var r := RemoveJoint(e, c, rmIdx);
    RemoveJointContract(e, c, rmIdx);
    // the removal keeps the lengths of c[..rmIdx] and c[rmIdx+1..]
    TotalLenSplit(r, rmIdx);
    assert r[..rmIdx] == c[..rmIdx];
    TotalLenSameLengths(r[rmIdx..], c[rmIdx + 1..]);
    // c is c[..rmIdx], then c[rmIdx], then c[rmIdx+1..]
    TotalLenSplit(c, rmIdx);
    var tail := c[rmIdx..];
    TotalLenSplit(tail, 1);
    assert tail[1..] == c[rmIdx + 1..];
    assert TotalLen(tail[..1]) == c[rmIdx].len by {
      assert tail[..1][..0] == [];
    }
  }

  /** What running the removal of rmIdx on list c may leave: the removal
      itself when rmIdx is an offered joint index; otherwise the list error of
      the source, raised after RemoveAt when only the successor is missing,
      and before any change when rmIdx itself is missing. */
  ghost predicate RemovalOutcome(e: Engine, c: seq<Node>, rmIdx: JointIndex, r: seq<Node>, faulted: bool) {
    && (rmIdx + 1 < |c| ==> !faulted && r == RemoveJoint(e, c, rmIdx))
    && (rmIdx + 1 == |c| ==> faulted && r == c[..rmIdx])
    && (rmIdx >= |c| ==> faulted && r == c)
  }

  /** The length edit on the list: node i gets the new length and node i+1,
      which hangs off it, moves to match. */
  function WithLength(c: seq<Node>, i: nat, newLen: real): seq<Node>
    requires i + 1 < |c|
  {
    var c1 := c[i := c[i].(len := newLen)];
    c1[i + 1 := c1[i + 1].(localPos := Forward(newLen))]
  }

  /** The length edit touches only len[i] and localPos[i+1], and keeps the
      structural invariant. */
  lemma WithLengthContract(c: seq<Node>, i: nat, newLen: real)
    requires i + 1 < |c|
    ensures var r := WithLength(c, i, newLen);
      && |r| == |c|
      && r[i] == c[i].(len := newLen)
      && r[i + 1] == c[i + 1].(localPos := Forward(newLen))
      && (forall k :: 0 <= k < |c| && k != i && k != i + 1 ==> r[k] == c[k])
      && (ChainValid(c) ==> ChainValid(r))
      && (forall bound: nat :: IdsBelow(c, bound) ==> IdsBelow(r, bound))
  {
  }

  /** The "-" button: one fewer pass, but never below 2. */
  function IterDown(it: int): (r: int)
    ensures r >= MinIterations
    ensures r <= it || it < MinIterations
    ensures MinIterations < it ==> r == it - 1
    ensures it <= MinIterations ==> r == MinIterations
    ensures MinIterations <= it <= MaxIterations ==> MinIterations <= r <= MaxIterations
  {
    if it - 1 < 2 then 2 else it - 1
  }

  /** The "+" button: one more pass, but never above 50. */
  function IterUp(it: int): (r: int)
    ensures r <= MaxIterations
    ensures r >= it || it > MaxIterations
    ensures it < MaxIterations ==> r == it + 1
    ensures MaxIterations <= it ==> r == MaxIterations
    ensures MinIterations <= it <= MaxIterations ==> MinIterations <= r <= MaxIterations
  {
    if it + 1 > 50 then 50 else it + 1
  }

  /** A copy of the list as an array for the in-place library routines. */
  method ToArray(s: seq<Node>) returns (a: array<Node>)
    ensures fresh(a) && a[..] == s
  {
    a := new Node[|s|](k requires 0 <= k < |s| => s[k]);
  }

  class IKTester {
    /** The chain; the last node is the end-effector. */
    var ikNodes: seq<Node>
    /** The identity the next created node object gets. */
    var nextId: nat
    var ikType: IKType
    var ikIterations: int
    var increaseGreediness: bool
    var greediness: real
    var runningIK: bool
    var resetBeforeUpdate: bool
    /** The position of the IK target. */
    var targ: Vec3
    var camAzimuth: real
    var camElevation: real
    var postOp: Option<PostOp>

    /** What every action keeps: a chain of at least two nodes (a root and an
        end-effector) satisfying the structural invariant, and of at least
        three while a removal is pending (the "X" buttons are drawn only then);
        fresh identities; and the settings within their controls' ranges. */
    ghost predicate Valid()
      reads this
    {
      && ChainValid(ikNodes)
      && |ikNodes| >= 2
      && (postOp.Some? ==> |ikNodes| >= 3)
      && IdsBelow(ikNodes, nextId)
      && MinIterations <= ikIterations <= MaxIterations
      && 0.0 <= greediness <= 1.0
    }

    /** The component's field initialisers followed by Start, which restarts. */
    constructor ()
      ensures Valid()
      ensures |ikNodes| == 4 && postOp == None
      ensures runningIK && !resetBeforeUpdate
      ensures ikType == Cascade && ikIterations == 10 && increaseGreediness && greediness == 0.5
    {
      ikNodes := [];
      nextId := 0;
      ikType := Cascade;
      ikIterations := 10;
      increaseGreediness := true;
      greediness := 0.5;
      runningIK := true;
      resetBeforeUpdate := false;
      targ := Zero;
      camAzimuth := 60.0;
      camElevation := 30.0;
      postOp := None;
      new;
      Restart();
    }

    /** Back to the scene as it was at start: a 4-node chain, 10 passes,
        greediness 0.5 with the ramp on, Cascade. */
    method Restart()
      modifies this`ikNodes, this`nextId, this`camAzimuth, this`camElevation, this`targ,
        this`ikType, this`ikIterations, this`increaseGreediness, this`greediness
      ensures Valid()
      ensures |ikNodes| == 4
      ensures forall k :: 0 <= k < 4 ==> ikNodes[k].len == DefDiamondLen && ikNodes[k].localRot == Identity
      ensures ikNodes[0].localPos == Zero
      ensures camAzimuth == 60.0 && camElevation == 30.0 && targ == Vec3(3.0, 0.25, 3.0)
      ensures ikType == Cascade && ikIterations == 10 && increaseGreediness && greediness == 0.5
    {
      RemakeIKList(DefDiamondLen, 3);
      camAzimuth := 60.0;
      camElevation := 30.0;
      targ := Vec3(3.0, 0.25, 3.0);
      ikType := Cascade;
      ikIterations := 10;
      increaseGreediness := true;
      greediness := 0.5;
    }

    /** Clear the chain and append nodes+1 nodes: the root gets len, every
        later node the default length. */
    method RemakeIKList(len: real, nodes: int)
      modifies this`ikNodes, this`nextId
      ensures |ikNodes| == (if nodes + 1 > 0 then nodes + 1 else 0)
      ensures ChainValid(ikNodes) && IdsBelow(ikNodes, nextId)
      ensures |ikNodes| > 0 ==> ikNodes[0].len == len && ikNodes[0].localPos == Zero
      ensures forall k :: 1 <= k < |ikNodes| ==> ikNodes[k].len == DefDiamondLen
      ensures forall k :: 0 <= k < |ikNodes| ==> ikNodes[k].localRot == Identity
    {
      ClearIKList();
      var i := 0;
      while i < nodes + 1
        invariant 0 <= i && (i <= nodes + 1 || i == 0)
        invariant |ikNodes| == i
        invariant ChainValid(ikNodes) && IdsBelow(ikNodes, nextId)
        invariant i > 0 ==> ikNodes[0].len == len && ikNodes[0].localPos == Zero
        invariant forall k :: 1 <= k < i ==> ikNodes[k].len == DefDiamondLen
        invariant forall k :: 0 <= k < i ==> ikNodes[k].localRot == Identity
      {
        AddNode(len);
        i := i + 1;
      }
    }

    /** Append one node; a fresh object identity is used for it. */
    method AddNode(len: real)
      modifies this`ikNodes, this`nextId
      ensures ikNodes == Appended(old(ikNodes), len, old(nextId))
      ensures nextId == old(nextId) + 1
      ensures ChainValid(old(ikNodes)) && IdsBelow(old(ikNodes), old(nextId)) ==>
        ChainValid(ikNodes) && IdsBelow(ikNodes, nextId)
    {
      AppendedContract(ikNodes, len, nextId);
      if |ikNodes| == 0 {
        ikNodes := ikNodes + [Node(nextId, None, Identity, Zero, len)];
      } else {
        var prevLast := ikNodes[|ikNodes| - 1];
        ikNodes := ikNodes + [Node(nextId, Some(prevLast.id), Identity, Forward(prevLast.len), DefDiamondLen)];
      }
      nextId := nextId + 1;
    }

    method ClearIKList()
      modifies this`ikNodes
      ensures ikNodes == []
    {
      ikNodes := [];
    }

    /** The solver arguments the tester passes: its target, greediness, ramp
        flag, iteration count and the fixed early-exit distance. */
    function Params(): SolveParams
      reads this`targ, this`greediness, this`increaseGreediness, this`ikIterations
    {
      SolveParams(targ, greediness, increaseGreediness, ikIterations, SolveEps)
    }

    /** One frame of the simulation: optionally straighten the chain, then run
        the selected solver with the tester's settings. */
    method Update(e: Engine)
      requires Valid()
      modifies this`ikNodes
      ensures Valid()
      ensures var start := if resetBeforeUpdate then Straightened(old(ikNodes)) else old(ikNodes);
        ikNodes == if runningIK then Solve(e, ikType, start, Params()).chain else start
    {
      if resetBeforeUpdate {
        ResetChain();
      }
      if runningIK {
        RunSolver(e);
      }
    }

    /** ResetNodes on the tester's list. */
    method ResetChain()
      requires Valid()
      modifies this`ikNodes
      ensures Valid()
      ensures ikNodes == Straightened(old(ikNodes))
    {
      StraightenedContract(ikNodes);
      var a := ToArray(ikNodes);
      ResetNodes(a);
      ikNodes := a[..];
    }

    /** The solver dispatch on the selected algorithm. */
    method RunSolver(e: Engine)
      requires Valid()
      modifies this`ikNodes
      ensures Valid()
      ensures ikNodes == Solve(e, ikType, old(ikNodes), Params()).chain
    {
      SolveContract(e, ikType, ikNodes, Params());
      var a := ToArray(ikNodes);
      match ikType {
        case Cascade =>
          PerformIKCascade(e, a, targ, greediness, increaseGreediness, ikIterations, SolveEps);
        case Stepped =>
          PerformIKStepped(e, a, targ, greediness, increaseGreediness, ikIterations, SolveEps);
      }
      ikNodes := a[..];
    }

    /** The three toggles of the panel. */
    method SetToggles(running: bool, increase: bool, resets: bool)
      modifies this`runningIK, this`increaseGreediness, this`resetBeforeUpdate
      ensures runningIK == running && increaseGreediness == increase && resetBeforeUpdate == resets
    {
      runningIK := running;
      increaseGreediness := increase;
      resetBeforeUpdate := resets;
    }

    /** The "Reset Transforms" button, shown only while resets are off. */
    method PressResetTransforms()
      requires Valid()
      modifies this`ikNodes
      ensures Valid()
      ensures ikNodes == if resetBeforeUpdate then old(ikNodes) else Straightened(old(ikNodes))
    {
      if !resetBeforeUpdate {
        ResetChain();
      }
    }

    /** The greediness slider over [0, 1]. */
    method SetGreediness(v: real)
      modifies this`greediness
      ensures greediness == Clamp(v, 0.0, 1.0)
    {
      greediness := Clamp(v, 0.0, 1.0);
    }

    method PressIterationsDown()
      modifies this`ikIterations
      ensures ikIterations == IterDown(old(ikIterations))
    {
      ikIterations := IterDown(ikIterations);
    }

    method PressIterationsUp()
      modifies this`ikIterations
      ensures ikIterations == IterUp(old(ikIterations))
    {
      ikIterations := IterUp(ikIterations);
    }

    /** The Cascade / Stepped selector. */
    method SelectAlgorithm(t: IKType)
      modifies this`ikType
      ensures ikType == t
    {
      ikType := t;
    }

    /** The "Add Node" button appends a node of the default length. */
    method PressAddNode()
      requires Valid()
      modifies this`ikNodes, this`nextId
      ensures Valid()
      ensures ikNodes == Appended(old(ikNodes), DefDiamondLen, old(nextId))
    {
      AddNode(DefDiamondLen);
    }

    /** The "X" button of node i, drawn only for 1 <= i <= Count-2 and only
        while there are more than two nodes: it schedules the removal. */
    method PressRemove(i: nat)
      requires Valid()
      requires |ikNodes| > 2 && 1 <= i <= |ikNodes| - 2
      modifies this`postOp
      ensures Valid()
      ensures postOp == Some(RemoveNode(i))
    {
      postOp := Some(RemoveNode(i));
    }

    /** The length slider of node i (drawn for i <= Count-2): the slider holds
        the value to [0.5, 10]; a changed length is written to node i and
        node i+1 is moved to match. */
    method EditLength(i: nat, v: real)
      requires Valid()
      requires i + 1 < |ikNodes|
      modifies this`ikNodes
      ensures Valid()
      ensures var newLen := Clamp(v, MinLen, MaxLen);
        ikNodes == if old(ikNodes[i].len) == newLen then old(ikNodes) else WithLength(old(ikNodes), i, newLen)
      ensures MinLen <= ikNodes[i].len <= MaxLen
    {
      var prevLen := ikNodes[i].len;
      var newLen := Clamp(v, MinLen, MaxLen);
      if prevLen != newLen {
        WithLengthContract(ikNodes, i, newLen);
        ikNodes := ikNodes[i := ikNodes[i].(len := newLen)];
        ikNodes := ikNodes[i + 1 := ikNodes[i + 1].(localPos := Forward(newLen))];
      }
    }

    /** The end of the GUI passes: a pending postOp is cleared and then run,
        so it runs at most once. */
    method RunPostOp(e: Engine) returns (faulted: bool)
      requires Valid()
      modifies this`ikNodes, this`postOp
      ensures Valid()
      ensures postOp == None
      ensures old(postOp).None? ==> !faulted && ikNodes == old(ikNodes)
      ensures old(postOp).Some? ==> RemovalOutcome(e, old(ikNodes), old(postOp).value.rmIdx, ikNodes, faulted)
    {
      faulted := false;
      var op := postOp;
      postOp := None;
      if op.Some? {
        faulted := RemoveNodeAt(e, op.value.rmIdx);
      }
    }

    /** The body of the removal postOp: destroy node rmIdx, RemoveAt(rmIdx),
        then hang the node now at rmIdx off node rmIdx-1. `faulted` reports the
        list index errors it raises when rmIdx no longer fits the list; for an
        index the "X" button offers on the current list it never faults. */
    method RemoveNodeAt(e: Engine, rmIdx: JointIndex) returns (faulted: bool)
      requires Valid() && |ikNodes| >= 3 && postOp == None
      modifies this`ikNodes
      ensures Valid()
      ensures RemovalOutcome(e, old(ikNodes), rmIdx, ikNodes, faulted)
    {
      faulted := false;
      var list := ikNodes;
      if rmIdx >= |list| {
        // reading ikNodes[rmIdx] to destroy it fails before anything changes
        faulted := true;
        return;
      }
      // the successor's world rotation while the removed node, whose
      // destruction is deferred, is still its parent
      var succWorld := if rmIdx + 1 < |list| then WorldRot(e, list, rmIdx + 1) else Identity;
      list := list[..rmIdx] + list[rmIdx + 1..];
      if rmIdx >= |list| {
        // the end-effector was removed; reading its successor fails
        faulted := true;
        assert list == ikNodes[..rmIdx];
        ikNodes := list;
        return;
      }
      // SetParent keeps the world rotation
      list := list[rmIdx := list[rmIdx].(parent := Some(list[rmIdx - 1].id),
                                         localRot := LocalFor(e, list, rmIdx, succWorld))];
      list := list[rmIdx := list[rmIdx].(localPos := Forward(list[rmIdx - 1].len))];
      RemoveJointContract(e, ikNodes, rmIdx);
      RemoveJointKeepsValid(e, ikNodes, rmIdx);
      assert list == RemoveJoint(e, ikNodes, rmIdx);
      ikNodes := list;
    }
  }
}
