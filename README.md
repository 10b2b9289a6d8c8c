# Simple IK sample: a verified model

This model covers the core of a small Unity demo of iterative inverse
kinematics (IK). A chain of bones ("nodes") hangs from a root. The last node is
the end-effector, and two relaxation solvers rotate the joints so that the
end-effector moves towards a target:

- **Cascade** updates one joint after another. Each joint sees the updates
  made before it in the same pass.
- **Stepped** computes every joint's correction from one snapshot taken at the
  start of the pass, then applies all of them.

An interactive tester owns the chain and edits it: build, append, delete with
reparenting, length edit, iteration counter, algorithm choice and straightening
reset. Once per frame it runs the selected solver. Two mesh helpers build the
diamond-shaped bone mesh and convert a triangle mesh into a wireframe line mesh.

Modules:

- `UnityMath` holds the engine types. There are vectors and quaternions over
  `real`, and a one-sub-mesh `Mesh` value. The engine's rotation maths form the
  `Engine` parameter: compose, inverse, from-to rotation, interpolation, vector
  rotation and magnitude. These operations are left uninterpreted. Every result
  about the solvers therefore holds for any implementation of them.
- `IKSys` holds:
  - the node record and forward kinematics over the list prefix;
  - the solvers as in-place `array<Node>` methods, each proved equal to the
    specification function `Solve`;
  - the per-pass functions `CascadeJoints` and `Corrections` / `ApplyMods`,
    the greediness ramp `RotAmt`, and `ResetNodes` against `Straightened`.
- `Tester` holds the `IKTester` class. Its fields are the list (a `seq` the
  methods reassign) and the settings. Each chain edit is also a function of
  the list, with lemmas: it keeps the structural invariant and changes exactly
  the stated entries.
- `DiamondShapeGen` holds the landmark and index tables of the bone mesh and
  `CreateDiamond`, including its flat-shading gather loop.
- `Wireframe` holds the triangle-to-line expansion as the `Start` method over a
  mutable `MeshFilter`, proved against the function `LineIndices`.

The structural invariant (`IKSys.ChainValid`) has three parts:

- the root has no parent;
- node i's parent is node i-1, and its local position is (0, 0, len[i-1]);
- no engine object appears twice.

Engine objects are modelled by a node `id`, and parents are references to ids.
The tester hands out fresh ids from a counter.

The tester's own invariant (`Tester.IKTester.Valid`) adds two size bounds. The
chain always has at least two nodes, a root and an end-effector. While a
removal is pending it has at least three, because the "X" buttons are drawn
only then.

Some behaviours of the code are easy to miss. The model keeps them as they
are:

- The solvers do not check that the chain has at least two nodes:
  - with one node, the passes update no joint, and the pass loop still runs
    to its budget or to the early exit;
  - an empty list makes both solvers throw before any pass. `PerformIK_Cascade`
    throws on the read of `nodes[-1]` (`Assets/IKSys.cs:54`), and
    `PerformIK_Stepped` throws earlier, when it allocates an array of length -1
    (`Assets/IKSys.cs:104-105`). So `nodes.Length >= 1` is the solvers'
    precondition.
- The parameters are not range-checked:
  - an iteration count of zero or below runs no pass;
  - any rotation fraction is accepted.
- A degenerate direction (the base on the target or on the end-effector) gets
  no identity fallback. Its rotation is whatever the engine's from-to rotation
  returns, so it stays a parameter.
- Node removal has no off-by-one mistake for the indices the "X" button offers
  (1 <= i <= Count-2 with Count > 2):
  - after `RemoveAt(i)`, index i names the removed node's successor, which is
    hung off node i-1;
  - every index the removal reads is in bounds. `Tester.RemoveJoint`'s
    precondition (1 <= i and i + 1 < Count) is what the button offers, and
    `Tester.IKTester.RemoveNodeAt` reports a stale index as a fault;
  - `Tester.RemoveJointKeepsValid` proves the invariant kept.
- The one-argument `SetParent` keeps the successor's world transform. The
  removed node is only destroyed at the end of the frame, so it is still the
  successor's parent when `SetParent` runs.
  - The successor's new local rotation is inverse(W[i-1]) * W_old[i+1]
    (`Tester.RemoveJointContract`).
  - Under the engine law that undoing a rotation and applying it again changes
    nothing (`IKSys.InverseCancels`), every remaining node keeps its world
    rotation (`Tester.RemoveJointKeepsWorldRot`).
  - The local position is then overwritten, so the successor sits at
    (0, 0, len[i-1]) from its new parent. Each remaining bone keeps its own
    length, so the total drops by exactly the removed node's length
    (`Tester.RemoveJointTotalLen`).

## Model

| member | source | states |
|---|---|---|
| IKSys.WorldRot | Assets/IKSys.cs:77 | defines a node's world rotation (the `rotation` getter): its parent's world rotation composed with its local rotation, the root's being its own |
| IKSys.WorldPos | Assets/IKSys.cs:63-64 | defines a node's world position: its parent's position plus its local position turned by the parent's world rotation |
| IKSys.EFPos | Assets/IKSys.cs:54 | defines the end-effector position: the world position of the last node, read through `endEffector` (also at `Assets/IKSys.cs:64`) |
| IKSys.DistToTarget | Assets/IKSys.cs:86-87 | defines the early-exit distance: the magnitude of end-effector minus target (the same test at `Assets/IKSys.cs:135-136` for Stepped) |
| IKSys.LocalFor | Assets/IKSys.cs:77 | defines the local rotation the rotation setter writes: inverse(parent's world rotation) * w, or w at the root |
| IKSys.SetWorldRotReaches | Assets/IKSys.cs:77 | when composing with an inverse cancels, setting node i's world rotation to w gives node i world rotation w |
| IKSys.SetWorldRot | Assets/IKSys.cs:77 | setting a node's world rotation writes that node's local rotation and nothing else in the chain |
| IKSys.WorldRotPrefix | Assets/IKSys.cs:77 | a node's world rotation depends only on the local rotations of the nodes up to it |
| IKSys.WorldPosPrefix | Assets/IKSys.cs:63-64 | a node's world position depends only on the rotations of the nodes above it and the local positions up to it |
| IKSys.SetWorldRotKeepsUpstream | Assets/IKSys.cs:60-77 | rotating joint k moves neither joint k nor any joint before it |
| IKSys.Correction | Assets/IKSys.cs:63-76 | defines a joint's correction: the from-to rotation from base-to-end-effector to base-to-target, interpolated from identity by rotAmt (the same expression in both solvers, `Assets/IKSys.cs:118-125` for Stepped) |
| IKSys.ApplyRot | Assets/IKSys.cs:77 | defines the joint update: node k's world rotation pre-multiplied by the correction (the same write at `Assets/IKSys.cs:129` for Stepped) |
| IKSys.CascadeJoints | Assets/IKSys.cs:60-78 | defines a Cascade pass over joints 0..k-1, each joint seeing the updates before it. Its own contract states only that the node count is kept; what changes is proved in `IKSys.CascadeJointsFrame` |
| IKSys.CascadeJointsFrame | Assets/IKSys.cs:60-78 | after joints 0..k-1 of a Cascade pass, only the local rotations of those joints differ and nodes k.. are untouched |
| IKSys.Corrections | Assets/IKSys.cs:111-126 | defines the Stepped corrections: one per joint, every one computed on the chain as it stood at the start of the pass. The loop is proved to fill them in `IKSys.ComputeMods` |
| IKSys.ApplyMods | Assets/IKSys.cs:128-129 | defines applying the first k stored corrections, joint 0 first. Its own contract states only that the node count is kept; what changes is proved in `IKSys.ApplyModsFrame` |
| IKSys.ApplyModsFrame | Assets/IKSys.cs:128-129 | applying the first k stored corrections changes only the local rotations of joints 0..k-1 |
| IKSys.Pass | Assets/IKSys.cs:57-78 | defines one pass of the selected strategy. Its own contract states only that the node count is kept; what changes is proved in `IKSys.PassFrame` |
| IKSys.PassFrame | Assets/IKSys.cs:57-78 | one pass of either strategy keeps every field but the joints' local rotations, and never writes the end-effector |
| IKSys.SingleJointStrategiesAgree | Assets/IKSys.cs:108-129 | with a single joint the Cascade and Stepped passes give the same chain |
| IKSys.RampStep | Assets/IKSys.cs:83 | defines the per-pass increment (1 - rotPercent) / (iterCt - 1) |
| IKSys.RotAmt | Assets/IKSys.cs:55-83 | defines the amount used on pass j: rotPercent plus j increments with the ramp on, rotPercent without it |
| IKSys.NoRampConstant | Assets/IKSys.cs:82-83 | without the ramp every pass uses rotPercent |
| IKSys.RampEndsAtOne | Assets/IKSys.cs:80-83 | with the ramp, pass 0 uses rotPercent and pass iterCt-1 uses exactly 1 |
| IKSys.RampMonotone | Assets/IKSys.cs:131-132 | with the ramp and rotPercent <= 1, the amount never decreases from pass to pass and stays within [rotPercent, 1] |
| IKSys.RampAdvance | Assets/IKSys.cs:82-83 | adding the step once per pass yields the closed form rotPercent + j * (1 - rotPercent) / (iterCt - 1) |
| IKSys.SolveFrom | Assets/IKSys.cs:57-90 | defines the pass loop from pass i, with the early exit. Its own contract states only that the node count is kept; the substance is in `IKSys.SolveFromOnlyRotates`, `IKSys.SolveFromPasses` and `IKSys.SolveFromEarlyExit` |
| IKSys.Solve | Assets/IKSys.cs:50-91 | a whole solve keeps the node count |
| IKSys.SolveFromOnlyRotates | Assets/IKSys.cs:57-90 | across all passes only the joints' local rotations change |
| IKSys.SolveFromPasses | Assets/IKSys.cs:57 | the pass count lies within the budget, and at least one pass runs when the budget allows one |
| IKSys.SolveFromEarlyExit | Assets/IKSys.cs:85-88 | stopping before the budget is used up means the end-effector is within eps of the target |
| IKSys.SolveContract | Assets/IKSys.cs:50-91 | the solve contract: <br>- at most max(iterCt, 0) passes, and at least one when iterCt >= 1<br>- an early exit leaves the end-effector within eps<br>- the end-effector node, every len and every local position are unchanged, and so is the root's world position<br>- the structural invariant is kept |
| IKSys.PreRotate | Assets/IKSys.cs:77 | pre-multiplying node k's world rotation is exactly ApplyRot on the array's contents |
| IKSys.CascadePass | Assets/IKSys.cs:60-78 | the in-place joint loop produces the Cascade pass of the chain it started from |
| IKSys.SteppedPass | Assets/IKSys.cs:111-129 | rqmods ends holding the snapshot corrections and the array holds the Stepped pass of its initial contents |
| IKSys.ComputeMods | Assets/IKSys.cs:111-126 | the first loop leaves rqmods[nit] = the correction of joint nit computed on the unchanged chain |
| IKSys.ApplyAllMods | Assets/IKSys.cs:128-129 | the second loop applies every stored correction, joint 0 first |
| IKSys.PerformIKCascade | Assets/IKSys.cs:50-91 | the array ends as Solve(Cascade, ...) of its initial contents |
| IKSys.PerformIKStepped | Assets/IKSys.cs:102-140 | the array ends as Solve(Stepped, ...) of its initial contents |
| IKSys.Straightened | Assets/IKSys.cs:145-154 | defines the straight pose, node by node through `IKSys.StraightNode`. Its properties are proved in `IKSys.StraightenedContract`, `IKSys.StraightenedIdempotent` and `IKSys.StraightenedDeterministic` |
| IKSys.StraightenedContract | Assets/IKSys.cs:145-154 | reset: <br>- every rotation becomes identity, the root goes to the origin and node i to (0,0,len[i-1])<br>- lengths, ids and parents are kept, and so is the invariant |
| IKSys.StraightenedIdempotent | Assets/IKSys.cs:143-155 | resetting twice equals resetting once |
| IKSys.StraightenedDeterministic | Assets/IKSys.cs:143-155 | the reset pose depends only on the lengths, ids and parents, never on the earlier pose |
| IKSys.StraightNode | Assets/IKSys.cs:147-153 | defines one node of the reset: identity local rotation, the root at the origin, node i at (0,0,len[i-1]) |
| IKSys.ResetNodes | Assets/IKSys.cs:143-155 | the in-place loop leaves exactly the straight pose |
| UnityMath.Min | Assets/DiamondShapeGen.cs:17 | the result is at most both arguments and is one of them |
| UnityMath.Clamp | Assets/IKTester.cs:303 | a slider's value lies in [lo, hi], equals the request inside the range and the nearer bound outside it |
| Tester.Appended | Assets/IKTester.cs:182-192 | defines AddNode on the list: a root on an empty list, otherwise a new end-effector hanging off the old last node |
| Tester.AppendedContract | Assets/IKTester.cs:172-194 | appending: <br>- on an empty list, a parentless root with the given length<br>- otherwise a node with identity rotation, parented to the old last node at (0,0,prevLast.len), with length 2.0 whatever the argument<br>- earlier nodes are unchanged and the invariant is kept |
| Tester.RemoveJoint | Assets/IKTester.cs:293-296 | defines the removal postOp on the list: `RemoveAt(rmIdx)`, then `SetParent` of the successor to node rmIdx-1 keeping its world rotation, then its local position set to (0,0,len[rmIdx-1]) |
| Tester.RemoveJointContract | Assets/IKTester.cs:293-296 | removal deletes exactly element rmIdx. The successor gets parent node rmIdx-1, local rotation inverse(W[rmIdx-1]) * W_old[rmIdx+1] and local position (0,0,len[rmIdx-1]); every other node is unchanged |
| Tester.RemoveJointKeepsWorldRot | Assets/IKTester.cs:295 | when composing with an inverse cancels, every remaining node keeps the world rotation it had before the removal |
| Tester.RemoveJointKeepsValid | Assets/IKTester.cs:294-296 | removal keeps the structural invariant and the fresh-identity bound |
| Tester.RemoveJointTotalLen | Assets/IKTester.cs:293-296 | removal lowers the total bone length by exactly the removed bone's length |
| Tester.RemovalOutcome | Assets/IKTester.cs:293-296 | defines what the removal postOp may leave: RemoveJoint when rmIdx is an offered index; otherwise the list error, raised after `RemoveAt` when only the successor is missing and before any change when rmIdx itself is missing |
| Tester.WithLength | Assets/IKTester.cs:306-308 | defines the length edit on the list: node i gets the new length and node i+1 moves to (0,0,newLen) |
| Tester.WithLengthContract | Assets/IKTester.cs:306-308 | the length edit changes only node i's length and node i+1's local position (to (0,0,newLen)), and keeps the invariant |
| Tester.IterDown | Assets/IKTester.cs:253-254 | "-" gives max(it-1, 2): it-1 above 2, exactly 2 at or below it, and keeps [2, 50] |
| Tester.IterUp | Assets/IKTester.cs:258-259 | "+" gives min(it+1, 50): it+1 below 50, exactly 50 at or above it, and keeps [2, 50] |
| Tester.IKTester.constructor | Assets/IKTester.cs:59-77 | the field initialisers plus Start leave an invariant-satisfying 4-node Cascade setup with no pending postOp |
| Tester.IKTester.Restart | Assets/IKTester.cs:81-91 | 4 straight nodes of length 2, the target at (3, 0.25, 3), the camera angles, and Cascade with 10 iterations, greediness 0.5 and the ramp on |
| Tester.IKTester.RemakeIKList | Assets/IKTester.cs:164-169 | the list is cleared and refilled with exactly nodes+1 nodes: the root of length len, the rest of length 2.0, all identity rotations, invariant kept |
| Tester.IKTester.AddNode | Assets/IKTester.cs:172-194 | the list becomes Appended(old list), with a fresh identity |
| Tester.IKTester.ClearIKList | Assets/IKTester.cs:197-203 | the list becomes empty |
| Tester.IKTester.Update | Assets/IKTester.cs:98-112 | the list becomes the selected solver's result on the (optionally straightened) list, or just the straightened list when the solver is off |
| Tester.IKTester.ResetChain | Assets/IKTester.cs:98-99 | ResetNodes on the tester's list gives Straightened and keeps the tester's invariant |
| Tester.IKTester.RunSolver | Assets/IKTester.cs:101-112 | the dispatch runs Cascade or Stepped with the tester's target, greediness, ramp flag, iterations and 0.001 |
| Tester.IKTester.Params | Assets/IKTester.cs:106-109 | defines the arguments the tester passes to either solver: its target, greediness, ramp flag, iteration count and 0.001 |
| Tester.IKTester.SetToggles | Assets/IKTester.cs:235-241 | the three toggles take the given values |
| Tester.IKTester.PressResetTransforms | Assets/IKTester.cs:242-246 | the button straightens the chain only while per-frame resets are off |
| Tester.IKTester.SetGreediness | Assets/IKTester.cs:248 | greediness becomes the slider value held to [0, 1] |
| Tester.IKTester.PressIterationsDown | Assets/IKTester.cs:253-254 | the iteration count becomes IterDown of the old count |
| Tester.IKTester.PressIterationsUp | Assets/IKTester.cs:258-259 | the iteration count becomes IterUp of the old count |
| Tester.IKTester.SelectAlgorithm | Assets/IKTester.cs:263-266 | the selected strategy is stored |
| Tester.IKTester.PressAddNode | Assets/IKTester.cs:271-272 | appends a node of the default length and keeps the invariant |
| Tester.IKTester.PressRemove | Assets/IKTester.cs:285-297 | offered only for 1 <= i <= Count-2 with Count > 2, it schedules the removal of node i |
| Tester.IKTester.EditLength | Assets/IKTester.cs:302-309 | the clamped slider value is written only when it differs, as WithLength; the length stays in [0.5, 10] |
| Tester.IKTester.RunPostOp | Assets/IKTester.cs:347-355 | a pending postOp is cleared before it runs, so it runs once; with none the list is unchanged |
| Tester.IKTester.RemoveNodeAt | Assets/IKTester.cs:293-296 | the removal gives RemoveJoint for an offered index; for a stale index it faults with the list errors of the code and keeps the invariant |
| DiamondShapeGen.BaseExt | Assets/DiamondShapeGen.cs:17 | the waist offset is at most sqrad and at most len/2, and equals one of them |
| DiamondShapeGen.DiamondVertices | Assets/DiamondShapeGen.cs:20-29 | defines the six landmarks: the base tip, the four waist corners and the far tip |
| DiamondShapeGen.DiamondVerticesShape | Assets/DiamondShapeGen.cs:20-29 | six landmarks: <br>- the origin and (0,0,len)<br>- four waist corners at z = baseExt, covering all four (+-sqrad, +-sqrad)<br>- for non-negative sizes every z lies in [0, len] |
| DiamondShapeGen.DiamondIndicesShape | Assets/DiamondShapeGen.cs:32-45 | 24 indices, each in [0, 6); triangles 0-3 start at the base tip 0, triangles 4-7 at the far tip 5 |
| DiamondShapeGen.Gathered | Assets/DiamondShapeGen.cs:57-59 | defines the flat-shading gather: one vertex per index, in index order |
| DiamondShapeGen.DiamondMesh | Assets/DiamondShapeGen.cs:47-75 | defines the mesh `CreateDiamond` returns: gathered vertices with indices 0..23 when flat, the landmarks with the index table otherwise |
| DiamondShapeGen.Identities | Assets/DiamondShapeGen.cs:63-65 | defines the flat-shading index table 0, 1, ..., n-1. What it means for the mesh is proved in `DiamondShapeGen.DiamondMeshSameTriangles` |
| DiamondShapeGen.DiamondMeshSameTriangles | Assets/DiamondShapeGen.cs:51-75 | both shadings: <br>- they draw the same triangles at the same positions, with every index in range<br>- flat mode has 24 vertices numbered in order, smooth mode the 6 landmarks |
| DiamondShapeGen.CreateDiamond | Assets/DiamondShapeGen.cs:13-79 | the gather and numbering loops build exactly DiamondMesh(sqrad, len, flat) |
| Wireframe.MeshFilter.constructor | Assets/ConvertRenderingToWireframe.cs:15 | the mesh filter holds the given mesh, which `Start` reads and replaces |
| Wireframe.LineIndices | Assets/ConvertRenderingToWireframe.cs:27-35 | defines the triangle-to-line expansion. Its own contract states only the length (3t triangle indices give 6t line indices); the contents are proved in `Wireframe.LineIndicesSlice` and `Wireframe.LineIndicesFromInput` |
| Wireframe.LineIndicesStep | Assets/ConvertRenderingToWireframe.cs:27-35 | one more triangle appends exactly its three edges (a, b, b, c, c, a) to the line list |
| Wireframe.LineIndicesFromInput | Assets/ConvertRenderingToWireframe.cs:29-34 | every line index is one of the triangle indices |
| Wireframe.LineIndicesSlice | Assets/ConvertRenderingToWireframe.cs:29-34 | triangle k (a, b, c) becomes the slice (a, b, b, c, c, a) at 6k |
| Wireframe.LineIndicesInRange | Assets/ConvertRenderingToWireframe.cs:29-34 | if every triangle index names a vertex, so does every line index |
| Wireframe.WireframeOf | Assets/ConvertRenderingToWireframe.cs:23-40 | the copy has the same vertices and Lines topology with twice the indices; none exists when the count is not a multiple of 3 |
| Wireframe.Start | Assets/ConvertRenderingToWireframe.cs:12-45 | conversion: <br>- no mesh filter: nothing happens<br>- index count not a multiple of 3: it faults and the mesh is untouched<br>- otherwise the filter's mesh becomes the wireframe copy |

## Left out

- Floating point:
  - all coordinates, lengths and amounts are `real`;
  - the repeated float addition of the ramp step is modelled by its exact
    closed form;
  - NaN, infinities and rounding are not modelled.
- IKSys.RampStep: with a budget of one pass, the code divides by zero. The
  float result is computed after the only pass and never read. The model uses
  the value 0 there.
- The engine's rotation maths (`Quaternion.FromToRotation`, `Quaternion.Lerp`,
  composition, inverse, vector rotation, magnitude) are uninterpreted
  parameters. Nothing is claimed about convergence or accuracy.
- IKSys.SolveContract: says nothing about the final distance after a full
  budget, because that depends on the engine's maths.
- The transform hierarchy:
  - world transforms are computed from the list prefix, which is the
    hierarchy exactly when `ChainValid` holds;
  - every operation the tester offers keeps `ChainValid`;
  - engine objects are represented by ids, and `Transform` objects are not
    modelled separately.
- The solvers on an empty list: both throw before any pass (Cascade on the
  index -1, Stepped on the array of length -1). The solvers require at least
  one node, and the tester always has at least two.
- The default arguments of `PerformIK_Cascade` and `PerformIK_Stepped`
  (rotPercent 0.1, ramp on, iterCt 20, eps 0.001): every call the tester makes
  passes all of them, so the model's solvers take every parameter explicitly.
- Tester.RemoveJointKeepsWorldRot: the successor's world position is not kept,
  because the code overwrites its local position after `SetParent`. World
  rotations are kept only under the inverse law of the engine's composition,
  which the uninterpreted maths do not provide on their own.
- Mouse, camera and input handling (target dragging, raycasts, plane
  intersection, angle wrapping in `Update` and `OnGUI`): input handling and
  float geometry. The camera angles are only set by `Restart`.
- GUI layout (boxes, colours, scroll view, the disabled camera sliders). Only
  the effects of the buttons, toggles and sliders are modelled, and a GUI call
  is one method call.
- Engine object lifecycle: `GameObject` creation and `Destroy`,
  `UpdateDiamond`'s mesh and material assignment, `Mesh.SetVertices`,
  `SetIndices` and `RecalculateNormals`. A mesh is a plain value of vertices,
  indices and topology.
- Tester.IKTester.Update:
  - the tester copies its list into an array for the in-place routines and
    copies the result back; the code passes the list by reference, with the
    same effect;
  - the mouse part of `Update` is not modelled.
- Wireframe.Start:
  - only sub-mesh 0 is modelled;
  - `GetComponent` becomes a nullable `MeshFilter` argument;
  - the instance copy made by the `mesh` getter is not modelled;
  - the out-of-range read on a bad index count is the `faulted` result.
- Removal exceptions: a stale removal index makes the code throw. The model
  reports this as the `faulted` result, and the list is as the code leaves it.
- Concurrency and I/O: there is none. Everything runs on the single-threaded
  frame loop.
