/** The IK library: the chain of nodes, its forward kinematics, the two
    iterative solvers (Cascade and Stepped) and the straightening reset.

    A chain is a sequence of nodes, parent first; the last node is the
    end-effector. A node's world rotation and world position are computed from
    the list prefix up to it, which is the transform hierarchy whenever the
    structural invariant `ChainValid` holds (node i's parent is node i-1). */
module IKSys {
  import opened UnityMath

  /** One bone: its transform (identity, parent, local rotation, local position)
      and its length. `id` stands for the engine object's identity, so that a
      parent link is a reference to an object and not to a list index. */
  datatype Node = Node(id: nat, parent: Option<nat>, localRot: Quaternion, localPos: Vec3, len: real)

  /** The two strategies the tester can pick between. */
  datatype IKType = Cascade | Stepped

  /** The arguments of one solver call besides the chain. */
  datatype SolveParams = SolveParams(targ: Vec3, rotPercent: real, incrRaiseRotAmt: bool, iterCt: int, eps: real)

  /** The outcome of a solve: the final chain and the number of passes run. */
  datatype Outcome = Outcome(chain: seq<Node>, passes: nat)

  /** The structural invariant the tester maintains: the root has no parent,
      node i hangs off node i-1 at distance len[i-1] along its forward axis,
      and no engine object appears twice. */
  ghost predicate ChainValid(c: seq<Node>) {
    && (|c| > 0 ==> c[0].parent == None)
    && (forall i :: 1 <= i < |c| ==> c[i].parent == Some(c[i - 1].id) && c[i].localPos == Forward(c[i - 1].len))
    && (forall i, j :: 0 <= i < j < |c| ==> c[i].id != c[j].id)
  }

  // ---------------------------------------------------------------------------
  // Forward kinematics

  /** The world rotation of node i: the product of the local rotations of
      nodes 0..i, root first. */
  function WorldRot(e: Engine, c: seq<Node>, i: nat): Quaternion
    requires i < |c|
  {
    if i == 0 then c[0].localRot else e.compose(WorldRot(e, c, i - 1), c[i].localRot)
  }

  /** The world position of node i: the root's position, then each node's local
      position turned by its parent's world rotation. */
  function WorldPos(e: Engine, c: seq<Node>, i: nat): Vec3
    requires i < |c|
  {
    if i == 0 then c[0].localPos
    else Add(WorldPos(e, c, i - 1), e.rotate(WorldRot(e, c, i - 1), c[i].localPos))
  }

  function EFPos(e: Engine, c: seq<Node>): Vec3
    requires |c| >= 1
  {
    WorldPos(e, c, |c| - 1)
  }

  /** The distance between the end-effector and the target. */
  function DistToTarget(e: Engine, c: seq<Node>, targ: Vec3): real
    requires |c| >= 1
  {
    e.magnitude(Sub(EFPos(e, c), targ))
  }

  /** The local rotation that gives node i the world rotation w; the engine's
      world-rotation setter writes exactly this into the local rotation. */
  function LocalFor(e: Engine, c: seq<Node>, i: nat, w: Quaternion): Quaternion
    requires i < |c|
  {
    if i == 0 then w else e.compose(e.inverse(WorldRot(e, c, i - 1)), w)
  }

  /** Set node i's world rotation: only node i's local rotation is written. */
  function SetWorldRot(e: Engine, c: seq<Node>, i: nat, w: Quaternion): (r: seq<Node>)
    requires i < |c|
    ensures |r| == |c| && r[i] == c[i].(localRot := r[i].localRot)
    ensures forall j :: 0 <= j < |c| && j != i ==> r[j] == c[j]
  {
    c[i := c[i].(localRot := LocalFor(e, c, i, w))]
  }

  /** The law of the engine's rotations the setter relies on: undoing a
      rotation and applying it again changes nothing. */
  ghost predicate InverseCancels(e: Engine) {
    forall a, b :: e.compose(a, e.compose(e.inverse(a), b)) == b
  }

  /** Under that law the setter does what it says: node i ends up with world
      rotation w. */
  lemma SetWorldRotReaches(e: Engine, c: seq<Node>, i: nat, w: Quaternion)
    requires InverseCancels(e) && i < |c|
    ensures WorldRot(e, SetWorldRot(e, c, i, w), i) == w
  {
    if i > 0 {
      WorldRotPrefix(e, SetWorldRot(e, c, i, w), c, i - 1);
    }
  }

  /** The world rotation of node 0..i depends only on the local rotations of
      nodes 0..i. */
  lemma {:induction false} WorldRotPrefix(e: Engine, c1: seq<Node>, c2: seq<Node>, i: nat)
    requires i < |c1| && i < |c2|
    requires forall j :: 0 <= j <= i ==> c1[j].localRot == c2[j].localRot
    ensures WorldRot(e, c1, i) == WorldRot(e, c2, i)
  {
    if i > 0 {
      WorldRotPrefix(e, c1, c2, i - 1);
    }
  }

  /** Node i's world position depends only on the rotations of nodes 0..i-1
      and the local positions of nodes 0..i. */
  lemma {:induction false} WorldPosPrefix(e: Engine, c1: seq<Node>, c2: seq<Node>, i: nat)
    requires i < |c1| && i < |c2|
    requires forall j :: 0 <= j < i ==> c1[j].localRot == c2[j].localRot
    requires forall j :: 0 <= j <= i ==> c1[j].localPos == c2[j].localPos
    ensures WorldPos(e, c1, i) == WorldPos(e, c2, i)
  {
    if i > 0 {
      WorldPosPrefix(e, c1, c2, i - 1);
      WorldRotPrefix(e, c1, c2, i - 1);
    }
  }

  /** Rotating node k never moves node k itself nor any node before it. */
  lemma SetWorldRotKeepsUpstream(e: Engine, c: seq<Node>, k: nat, w: Quaternion, j: nat)
    requires k < |c| && j <= k
    ensures WorldPos(e, SetWorldRot(e, c, k, w), j) == WorldPos(e, c, j)
  {
    WorldPosPrefix(e, SetWorldRot(e, c, k, w), c, j);
  }

  // ---------------------------------------------------------------------------
  // One joint update, one pass

  /** The partial rotation joint k asks for in chain c: the shortest arc from
      base->end-effector to base->target, scaled by rotAmt. */
  function Correction(e: Engine, c: seq<Node>, targ: Vec3, rotAmt: real, k: nat): Quaternion
    requires k < |c|
  {
    var basePos := WorldPos(e, c, k);
    var baseToEF := Sub(EFPos(e, c), basePos);
    var baseToTarg := Sub(targ, basePos);
    e.lerp(Identity, e.fromTo(baseToEF, baseToTarg), rotAmt)
  }

  /** Pre-multiply node k's world rotation by q. */
  function ApplyRot(e: Engine, c: seq<Node>, k: nat, q: Quaternion): (r: seq<Node>)
    requires k < |c|
  {
    SetWorldRot(e, c, k, e.compose(q, WorldRot(e, c, k)))
  }

  /** The frame of a joint update: the same nodes, with only the local rotation
      of nodes 0..k-1 possibly changed, and nodes k.. untouched. */
  ghost predicate RotatedBelow(c: seq<Node>, r: seq<Node>, k: nat) {
    && |r| == |c|
    && (forall j :: 0 <= j < |c| ==> r[j] == c[j].(localRot := r[j].localRot))
    && (forall j :: k <= j < |c| ==> r[j] == c[j])
  }

  /** Cascade: joints 0..k-1 updated one after another, each correction
      computed on the chain that already holds the earlier joints' updates. */
  function CascadeJoints(e: Engine, c: seq<Node>, targ: Vec3, rotAmt: real, k: nat): (r: seq<Node>)
    requires k < |c|
    ensures |r| == |c|
    decreases k
  {
    if k == 0 then c
    else
      var prev := CascadeJoints(e, c, targ, rotAmt, k - 1);
      ApplyRot(e, prev, k - 1, Correction(e, prev, targ, rotAmt, k - 1))
  }

  /** Joints 0..k-1 of a Cascade pass write only their own local rotations. */
  lemma {:induction false} CascadeJointsFrame(e: Engine, c: seq<Node>, targ: Vec3, rotAmt: real, k: nat)
    requires k < |c|
    ensures RotatedBelow(c, CascadeJoints(e, c, targ, rotAmt, k), k)
    decreases k
  {
    if k > 0 {
      CascadeJointsFrame(e, c, targ, rotAmt, k - 1);
    }
  }

  /** Stepped: the corrections of all joints, every one computed on the same
      snapshot c. */
  function Corrections(e: Engine, c: seq<Node>, targ: Vec3, rotAmt: real): (r: seq<Quaternion>)
    requires |c| >= 1
    ensures |r| == |c| - 1
    ensures forall k :: 0 <= k < |r| ==> r[k] == Correction(e, c, targ, rotAmt, k)
  {
    seq(|c| - 1, k requires 0 <= k < |c| - 1 => Correction(e, c, targ, rotAmt, k))
  }

  /** Stepped: apply mods[0..k-1] to joints 0..k-1, in order. */
  function ApplyMods(e: Engine, c: seq<Node>, mods: seq<Quaternion>, k: nat): (r: seq<Node>)
    requires k <= |mods| && k < |c|
    ensures |r| == |c|
    decreases k
  {
    if k == 0 then c
    else
      var prev := ApplyMods(e, c, mods, k - 1);
      ApplyRot(e, prev, k - 1, mods[k - 1])
  }

  /** Applying mods[0..k-1] writes only the local rotations of joints 0..k-1. */
  lemma {:induction false} ApplyModsFrame(e: Engine, c: seq<Node>, mods: seq<Quaternion>, k: nat)
    requires k <= |mods| && k < |c|
    ensures RotatedBelow(c, ApplyMods(e, c, mods, k), k)
    decreases k
  {
    if k > 0 {
      ApplyModsFrame(e, c, mods, k - 1);
    }
  }

  /** One pass over joints 0..|c|-2 with the given strategy. */
  function Pass(e: Engine, t: IKType, c: seq<Node>, targ: Vec3, rotAmt: real): (r: seq<Node>)
    requires |c| >= 1
    ensures |r| == |c|
  {
    match t
    case Cascade => CascadeJoints(e, c, targ, rotAmt, |c| - 1)
    case Stepped => ApplyMods(e, c, Corrections(e, c, targ, rotAmt), |c| - 1)
  }

  /** A pass of either strategy writes only the joints' local rotations and
      never the end-effector. */
  lemma PassFrame(e: Engine, t: IKType, c: seq<Node>, targ: Vec3, rotAmt: real)
    requires |c| >= 1
    ensures RotatedBelow(c, Pass(e, t, c, targ, rotAmt), |c| - 1)
  {
    match t
    case Cascade => CascadeJointsFrame(e, c, targ, rotAmt, |c| - 1);
    case Stepped => ApplyModsFrame(e, c, Corrections(e, c, targ, rotAmt), |c| - 1);
  }

  /** With a single joint there is nothing for the two strategies to disagree
      about: both passes are the same. */
  lemma SingleJointStrategiesAgree(e: Engine, c: seq<Node>, targ: Vec3, rotAmt: real)
    requires |c| == 2
    ensures Pass(e, Cascade, c, targ, rotAmt) == Pass(e, Stepped, c, targ, rotAmt)
  {
    var mods := Corrections(e, c, targ, rotAmt);
    assert ApplyMods(e, c, mods, 0) == c;
    assert CascadeJoints(e, c, targ, rotAmt, 0) == c;
  }

  // ---------------------------------------------------------------------------
  // The greediness ramp and the pass loop

  /** The per-pass increment of rotAmt. With a single pass the increment is
      computed after the only pass and never read (the engine's float division
      by zero gives an infinity there); the model uses 0 for that unread value. */
  function RampStep(rotPercent: real, iterCt: int): real {
    if iterCt == 1 then 0.0 else (1.0 - rotPercent) / (iterCt - 1) as real
  }

  /** The rotation amount used on pass j (counting from 0). */
  function RotAmt(p: SolveParams, j: nat): real {
    if p.incrRaiseRotAmt then p.rotPercent + j as real * RampStep(p.rotPercent, p.iterCt) else p.rotPercent
  }

  /** Without the ramp every pass uses rotPercent. */
  lemma NoRampConstant(p: SolveParams, j: nat)
    requires !p.incrRaiseRotAmt
    ensures RotAmt(p, j) == p.rotPercent
  {
  }

  /** With the ramp, pass 0 uses rotPercent and the last pass uses exactly 1. */
  lemma RampEndsAtOne(p: SolveParams)
    requires p.incrRaiseRotAmt && p.iterCt >= 2
    ensures RotAmt(p, 0) == p.rotPercent
    ensures RotAmt(p, p.iterCt - 1) == 1.0
  {
    var n := (p.iterCt - 1) as real;
    var s := (1.0 - p.rotPercent) / n;
    assert n * s == 1.0 - p.rotPercent;
  }

  /** With the ramp and rotPercent <= 1, the amounts grow pass by pass and never
      pass 1 within the iteration budget. */
  lemma RampMonotone(p: SolveParams, i: nat, j: nat)
    requires p.incrRaiseRotAmt && p.iterCt >= 2 && p.rotPercent <= 1.0
    requires i <= j < p.iterCt
    ensures p.rotPercent <= RotAmt(p, i) <= RotAmt(p, j) <= 1.0
  {
    var n := (p.iterCt - 1) as real;
    var s := RampStep(p.rotPercent, p.iterCt);
    assert s == (1.0 - p.rotPercent) / n;
    assert s >= 0.0;
    assert i as real * s <= j as real * s;
    assert j as real * s <= n * s;
    RampEndsAtOne(p);
  }

  /** Accumulating the step once per pass gives the closed form of RotAmt. */
  lemma RampAdvance(p: SolveParams, i: nat)
    ensures RotAmt(p, i + 1) == RotAmt(p, i) + (if p.incrRaiseRotAmt then RampStep(p.rotPercent, p.iterCt) else 0.0)
  {
    var s := RampStep(p.rotPercent, p.iterCt);
    assert (i + 1) as real * s == i as real * s + s;
  }

  /** The pass loop from pass i on: run a pass, then stop early when the
      end-effector is within eps of the target. */
  function SolveFrom(e: Engine, t: IKType, c: seq<Node>, p: SolveParams, i: nat): (r: Outcome)
    requires |c| >= 1
    ensures |r.chain| == |c|
    decreases p.iterCt - i
  {
    if i >= p.iterCt then Outcome(c, i)
    else
      var next := Pass(e, t, c, p.targ, RotAmt(p, i));
      if DistToTarget(e, next, p.targ) <= p.eps then Outcome(next, i + 1)
      else SolveFrom(e, t, next, p, i + 1)
  }

  function Solve(e: Engine, t: IKType, c: seq<Node>, p: SolveParams): (r: Outcome)
    requires |c| >= 1
    ensures |r.chain| == |c|
  {
    SolveFrom(e, t, c, p, 0)
  }

  /** The solver only rotates: the same nodes in the same order, with every
      field but the local rotation of the joints 0..|c|-2 unchanged; in
      particular the end-effector node is not written. */
  lemma {:induction false} SolveFromOnlyRotates(e: Engine, t: IKType, c: seq<Node>, p: SolveParams, i: nat)
    requires |c| >= 1
    ensures RotatedBelow(c, SolveFrom(e, t, c, p, i).chain, |c| - 1)
    decreases p.iterCt - i
  {
    if i < p.iterCt {
      var next := Pass(e, t, c, p.targ, RotAmt(p, i));
      PassFrame(e, t, c, p.targ, RotAmt(p, i));
      if DistToTarget(e, next, p.targ) > p.eps {
        SolveFromOnlyRotates(e, t, next, p, i + 1);
      }
    }
  }

  /** The pass count never exceeds the budget, and at least one pass runs
      when the budget allows one. */
  lemma {:induction false} SolveFromPasses(e: Engine, t: IKType, c: seq<Node>, p: SolveParams, i: nat)
    requires |c| >= 1
    ensures var r := SolveFrom(e, t, c, p, i);
      && i <= r.passes
      && (i < p.iterCt ==> i < r.passes <= p.iterCt)
    decreases p.iterCt - i
  {
    if i < p.iterCt {
      var next := Pass(e, t, c, p.targ, RotAmt(p, i));
      if DistToTarget(e, next, p.targ) > p.eps {
        SolveFromPasses(e, t, next, p, i + 1);
      }
    }
  }

  /** Stopping before the budget is used up means the end-effector is within
      eps of the target. */
  lemma {:induction false} SolveFromEarlyExit(e: Engine, t: IKType, c: seq<Node>, p: SolveParams, i: nat)
    requires |c| >= 1
    ensures var r := SolveFrom(e, t, c, p, i);
      r.passes < p.iterCt ==> DistToTarget(e, r.chain, p.targ) <= p.eps
    decreases p.iterCt - i
  {
    if i < p.iterCt {
      var next := Pass(e, t, c, p.targ, RotAmt(p, i));
      if DistToTarget(e, next, p.targ) > p.eps {
        SolveFromEarlyExit(e, t, next, p, i + 1);
      }
    }
  }

  /** The whole-solve statement: at most iterCt passes; an early exit leaves the
      end-effector within eps; only joint rotations change, so the
      end-effector node, every length, every local position and the root's
      world position are as before, and the structural invariant survives. */
  lemma SolveContract(e: Engine, t: IKType, c: seq<Node>, p: SolveParams)
    requires |c| >= 1
    ensures var r := Solve(e, t, c, p);
      && r.passes <= (if p.iterCt < 0 then 0 else p.iterCt)
      && (p.iterCt >= 1 ==> r.passes >= 1)
      && (r.passes < p.iterCt ==> DistToTarget(e, r.chain, p.targ) <= p.eps)
      && |r.chain| == |c|
      && r.chain[|c| - 1] == c[|c| - 1]
      && (forall j :: 0 <= j < |c| ==> r.chain[j] == c[j].(localRot := r.chain[j].localRot))
      && (forall j :: 0 <= j < |c| ==> r.chain[j].len == c[j].len && r.chain[j].localPos == c[j].localPos)
      && WorldPos(e, r.chain, 0) == WorldPos(e, c, 0)
      && (ChainValid(c) ==> ChainValid(r.chain))
  {
    SolveFromPasses(e, t, c, p, 0);
    SolveFromEarlyExit(e, t, c, p, 0);
    SolveFromOnlyRotates(e, t, c, p, 0);
    var r := Solve(e, t, c, p);
    assert r.chain[0] == c[0].(localRot := r.chain[0].localRot);
    if ChainValid(c) {
      assert forall j :: 0 <= j < |c| ==> r.chain[j].id == c[j].id;
    }
  }

  // ---------------------------------------------------------------------------
  // The solvers, in place

  /** `nodes[k].transform.rotation = q * nodes[k].transform.rotation`: the
      world-rotation setter writes node k's local rotation and nothing else. */
  method PreRotate(e: Engine, nodes: array<Node>, k: nat, q: Quaternion)
    requires k < nodes.Length
    modifies nodes
    ensures nodes[..] == ApplyRot(e, old(nodes[..]), k, q)
  {
    var cur := nodes[..];
    var newWorld := e.compose(q, WorldRot(e, cur, k));
    nodes[k] := cur[k].(localRot := LocalFor(e, cur, k, newWorld));
    assert nodes[..] == SetWorldRot(e, cur, k, newWorld);
  }

  /** One Cascade pass, in place: joint nit reads the end-effector as it stands
      after joints 0..nit-1 were rotated, and its own rotation is written
      before joint nit+1 is visited. */
  method CascadePass(e: Engine, nodes: array<Node>, targ: Vec3, rotAmt: real)
    requires nodes.Length >= 1
    modifies nodes
    ensures nodes[..] == Pass(e, Cascade, old(nodes[..]), targ, rotAmt)
  {
    ghost var start := nodes[..];
    var lastNodeIdx := nodes.Length - 1;
    var nit := 0;
    while nit < lastNodeIdx
      invariant 0 <= nit <= lastNodeIdx
      invariant nodes[..] == CascadeJoints(e, start, targ, rotAmt, nit)
    {
      var cur := nodes[..];
      var basePos := WorldPos(e, cur, nit);
      var efPos := EFPos(e, cur);
      var baseToEF := Sub(efPos, basePos);
      var baseToTarg := Sub(targ, basePos);
      var rotFromTo := e.fromTo(baseToEF, baseToTarg);
      var rotRestrained := e.lerp(Identity, rotFromTo, rotAmt);
      assert rotRestrained == Correction(e, cur, targ, rotAmt, nit);
      PreRotate(e, nodes, nit, rotRestrained);
      nit := nit + 1;
    }
  }

  /** One Stepped pass, in place: first every rqmods[nit] is computed from the
      chain as it stood at the start of the pass, then all are applied. */
  method SteppedPass(e: Engine, nodes: array<Node>, rqmods: array<Quaternion>, targ: Vec3, rotAmt: real)
    requires rqmods.Length == nodes.Length - 1
    modifies nodes, rqmods
    ensures rqmods[..] == Corrections(e, old(nodes[..]), targ, rotAmt)
    ensures nodes[..] == Pass(e, Stepped, old(nodes[..]), targ, rotAmt)
  {
    ComputeMods(e, nodes, rqmods, targ, rotAmt);
    ApplyAllMods(e, nodes, rqmods);
  }

  /** The first loop of a Stepped pass: the chain is only read. */
  method ComputeMods(e: Engine, nodes: array<Node>, rqmods: array<Quaternion>, targ: Vec3, rotAmt: real)
    requires rqmods.Length == nodes.Length - 1
    modifies rqmods
    ensures rqmods[..] == Corrections(e, nodes[..], targ, rotAmt)
  {
    var nodeLinkCt := nodes.Length - 1;
    var cur := nodes[..];
    var nit := 0;
    while nit < nodeLinkCt
      invariant 0 <= nit <= nodeLinkCt
      invariant forall k :: 0 <= k < nit ==> rqmods[k] == Correction(e, cur, targ, rotAmt, k)
    {
      var basePos := WorldPos(e, cur, nit);
      var efPos := EFPos(e, cur);
      var baseToEF := Sub(efPos, basePos);
      var baseToTarg := Sub(targ, basePos);
      var rotFromTo := e.fromTo(baseToEF, baseToTarg);
      rqmods[nit] := e.lerp(Identity, rotFromTo, rotAmt);
      nit := nit + 1;
    }
    assert rqmods[..] == Corrections(e, cur, targ, rotAmt);
  }

  /** The second loop of a Stepped pass: rqmods is only read. */
  method ApplyAllMods(e: Engine, nodes: array<Node>, rqmods: array<Quaternion>)
    requires rqmods.Length == nodes.Length - 1
    modifies nodes
    ensures nodes[..] == ApplyMods(e, old(nodes[..]), rqmods[..], rqmods.Length)
  {
    ghost var start := nodes[..];
    var nodeLinkCt := nodes.Length - 1;
    var nit := 0;
    while nit < nodeLinkCt
      invariant 0 <= nit <= nodeLinkCt
      invariant nodes[..] == ApplyMods(e, start, rqmods[..], nit)
    {
      PreRotate(e, nodes, nit, rqmods[nit]);
      nit := nit + 1;
    }
  }

  /** Cascade solve: at most iterCt passes, stopping early once the
      end-effector is within eps of the target; rotAmt ramps up after every
      pass when incrRaiseRotAmt is set. */
  method PerformIKCascade(e: Engine, nodes: array<Node>, targ: Vec3, rotPercent: real, incrRaiseRotAmt: bool, iterCt: int, eps: real)
    requires nodes.Length >= 1
    modifies nodes
    ensures nodes[..] == Solve(e, Cascade, old(nodes[..]), SolveParams(targ, rotPercent, incrRaiseRotAmt, iterCt, eps)).chain
  {
    ghost var p := SolveParams(targ, rotPercent, incrRaiseRotAmt, iterCt, eps);
    ghost var goal := Solve(e, Cascade, nodes[..], p);
    var rotAmt := rotPercent;
    var i := 0;
    while i < iterCt
      invariant 0 <= i
      invariant rotAmt == RotAmt(p, i)
      invariant SolveFrom(e, Cascade, nodes[..], p, i) == goal
      decreases iterCt - i
    {
      CascadePass(e, nodes, targ, rotAmt);
      RampAdvance(p, i);
      if incrRaiseRotAmt {
        rotAmt := rotAmt + RampStep(rotPercent, iterCt);
      }
      var distEFtoTarg := DistToTarget(e, nodes[..], targ);
      if distEFtoTarg <= eps {
        break;
      }
      i := i + 1;
    }
  }

  /** Stepped solve: the same pass loop, ramp and early exit as Cascade, with
      the batched pass; rqmods is allocated once for all passes. */
  method PerformIKStepped(e: Engine, nodes: array<Node>, targ: Vec3, rotPercent: real, incrRaiseRotAmt: bool, iterCt: int, eps: real)
    requires nodes.Length >= 1
    modifies nodes
    ensures nodes[..] == Solve(e, Stepped, old(nodes[..]), SolveParams(targ, rotPercent, incrRaiseRotAmt, iterCt, eps)).chain
  {
    ghost var p := SolveParams(targ, rotPercent, incrRaiseRotAmt, iterCt, eps);
    ghost var goal := Solve(e, Stepped, nodes[..], p);
    var nodeLinkCt := nodes.Length - 1;
    var rqmods := new Quaternion[nodeLinkCt];
    var rotAmt := rotPercent;
    var i := 0;
    while i < iterCt
      invariant 0 <= i
      invariant rotAmt == RotAmt(p, i)
      invariant SolveFrom(e, Stepped, nodes[..], p, i) == goal
      decreases iterCt - i
    {
      SteppedPass(e, nodes, rqmods, targ, rotAmt);
      RampAdvance(p, i);
      if incrRaiseRotAmt {
        rotAmt := rotAmt + RampStep(rotPercent, iterCt);
      }
      var distEFtoTarg := DistToTarget(e, nodes[..], targ);
      if distEFtoTarg <= eps {
        break;
      }
      i := i + 1;
    }
  }

  // ---------------------------------------------------------------------------
  // Straightening

  /** Node i of the straight pose along Z: the root at the origin, node i >= 1
      at (0, 0, len[i-1]) from its parent, the local rotation the identity. */
  function StraightNode(c: seq<Node>, i: nat): Node
    requires i < |c|
  {
    c[i].(localPos := if i == 0 then Zero else Forward(c[i - 1].len), localRot := Identity)
  }

  /** The whole chain in the straight pose. */
  function Straightened(c: seq<Node>): (r: seq<Node>)
    ensures |r| == |c|
    ensures forall i :: 0 <= i < |c| ==> r[i] == StraightNode(c, i)
  {
    seq(|c|, i requires 0 <= i < |c| => StraightNode(c, i))
  }

  /** Reset writes only local positions and rotations, puts them in the straight
      pose and keeps the structural invariant. */
  lemma StraightenedContract(c: seq<Node>)
    ensures var r := Straightened(c);
      && (forall i :: 0 <= i < |c| ==> r[i].id == c[i].id && r[i].parent == c[i].parent && r[i].len == c[i].len)
      && (forall i :: 0 <= i < |c| ==> r[i].localRot == Identity)
      && (|c| > 0 ==> r[0].localPos == Zero)
      && (forall i :: 1 <= i < |c| ==> r[i].localPos == Forward(c[i - 1].len))
      && (ChainValid(c) ==> ChainValid(r))
  {
  }

  /** Resetting twice is resetting once. */
  lemma StraightenedIdempotent(c: seq<Node>)
    ensures Straightened(Straightened(c)) == Straightened(c)
  {
    var r := Straightened(c);
    forall i | 0 <= i < |c|
      ensures Straightened(r)[i] == r[i]
    {
      if i > 0 {
        assert r[i - 1].len == c[i - 1].len;
      }
    }
  }

  /** The reset pose depends only on the lengths (and the unchanged identities
      and parents), never on the rotations or positions the chain had before. */
  lemma StraightenedDeterministic(c1: seq<Node>, c2: seq<Node>)
    requires |c1| == |c2|
    requires forall i :: 0 <= i < |c1| ==> c1[i].id == c2[i].id && c1[i].parent == c2[i].parent && c1[i].len == c2[i].len
    ensures Straightened(c1) == Straightened(c2)
  {
    assert forall i :: 0 <= i < |c1| ==> Straightened(c1)[i] == Straightened(c2)[i];
  }

  /** ResetNodes, in place. */
  method ResetNodes(nodes: array<Node>)
    modifies nodes
    ensures nodes[..] == Straightened(old(nodes[..]))
  {
    ghost var original := nodes[..];
    for i := 0 to nodes.Length
      invariant forall k :: 0 <= k < i ==> nodes[k] == Straightened(original)[k]
      invariant forall k :: i <= k < nodes.Length ==> nodes[k] == original[k]
    {
      var n := nodes[i];
      if i == 0 {
        n := n.(localPos := Zero);
      } else {
        n := n.(localPos := Forward(nodes[i - 1].len));
      }
      n := n.(localRot := Identity);
      nodes[i] := n;
    }
    assert nodes[..] == Straightened(original);
  }
}
