/** The bone mesh: a six-point diamond along +Z, from the joint at the origin
    to the next joint at (0, 0, len), with a square waist of half-width sqrad.
    Flat shading duplicates the vertices so that no two triangles share one. */
module DiamondShapeGen {
  import opened UnityMath

  /** Where the waist sits along Z: sqrad, pulled back to len/2 for short bones. */
  function BaseExt(sqrad: real, len: real): (r: real)
    ensures r <= sqrad && r <= len / 2.0
    ensures r == sqrad || r == len / 2.0
  {
    Min(sqrad, len / 2.0)
  }

  /** The six positional landmarks: the base tip, the four waist corners and the far tip. */
  function DiamondVertices(sqrad: real, len: real): seq<Vec3> {
    var baseExt := BaseExt(sqrad, len);
    [ Vec3(0.0, 0.0, 0.0),
      Vec3(-sqrad, sqrad, baseExt),
      Vec3(sqrad, sqrad, baseExt),
      Vec3(sqrad, -sqrad, baseExt),
      Vec3(-sqrad, -sqrad, baseExt),
      Vec3(0.0, 0.0, len) ]
  }

  /** How the landmarks are stitched: four triangles fanning from the base tip,
      then four from the far tip. */
  const DiamondIndices: seq<int> :=
    [ 0, 1, 2,
      0, 2, 3,
      0, 3, 4,
      0, 4, 1,
      5, 2, 1,
      5, 3, 2,
      5, 4, 3,
      5, 1, 4 ]

  /** The shape of the landmark table: the two tips on the axis and the waist
      corners at every sign combination of (x, y) = (+-sqrad, +-sqrad), all on
      the plane z = baseExt; for a non-negative size every point lies between
      the two joints. */
  lemma DiamondVerticesShape(sqrad: real, len: real)
    ensures var v := DiamondVertices(sqrad, len);
      && |v| == 6
      && v[0] == Zero && v[5] == Forward(len)
      && (forall k :: 1 <= k <= 4 ==> v[k].z == BaseExt(sqrad, len))
      && (forall k :: 1 <= k <= 4 ==> (v[k].x == sqrad || v[k].x == -sqrad) && (v[k].y == sqrad || v[k].y == -sqrad))
      && {(v[1].x, v[1].y), (v[2].x, v[2].y), (v[3].x, v[3].y), (v[4].x, v[4].y)}
         == {(-sqrad, sqrad), (sqrad, sqrad), (sqrad, -sqrad), (-sqrad, -sqrad)}
      && (sqrad >= 0.0 && len >= 0.0 ==> forall k :: 0 <= k < 6 ==> 0.0 <= v[k].z <= len)
  {
    var v := DiamondVertices(sqrad, len);
    assert forall k :: 1 <= k <= 4 ==> v[k].z == BaseExt(sqrad, len);
  }

  /** The index table: eight triangles over the six landmarks, the first four
      fanned from the base tip and the last four from the far tip. */
  lemma DiamondIndicesShape()
    ensures |DiamondIndices| == 24
    ensures forall k :: 0 <= k < 24 ==> 0 <= DiamondIndices[k] < 6
    ensures forall t :: 0 <= t < 4 ==> DiamondIndices[3 * t] == 0
    ensures forall t :: 4 <= t < 8 ==> DiamondIndices[3 * t] == 5
  {
  }

  /** The flat-shading gather: one vertex per index, in index order. */
  function Gathered(verts: seq<Vec3>, idxs: seq<int>): (r: seq<Vec3>)
    requires forall k :: 0 <= k < |idxs| ==> 0 <= idxs[k] < |verts|
  {
    seq(|idxs|, k requires 0 <= k < |idxs| => verts[idxs[k]])
  }

  /** The mesh CreateDiamond hands back, before normals are computed. */
  function DiamondMesh(sqrad: real, len: real, flat: bool): Mesh {
    DiamondIndicesShape();
    var verts := DiamondVertices(sqrad, len);
    if flat then Mesh(Gathered(verts, DiamondIndices), Identities(|DiamondIndices|), Triangles)
    else Mesh(verts, DiamondIndices, Triangles)
  }

  /** 0, 1, ..., n-1: every vertex drawn once, in order. */
  function Identities(n: nat): (r: seq<int>)
    ensures |r| == n && forall i :: 0 <= i < n ==> r[i] == i
  {
    seq(n, i => i)
  }

  /** Both shading modes draw the same eight triangles at the same positions:
      entry k of either index list names the landmark DiamondIndices[k]. Every
      index names a vertex; the flat mesh uses each vertex exactly once, and
      the smooth one shares the six landmarks. */
  lemma DiamondMeshSameTriangles(sqrad: real, len: real, flat: bool)
    ensures var m := DiamondMesh(sqrad, len, flat);
      && m.topology == Triangles
      && IndicesInRange(m)
      && |m.indices| == 24
      && (forall k :: 0 <= k < 24 ==>
            m.vertices[m.indices[k]] == DiamondVertices(sqrad, len)[DiamondIndices[k]])
      && (flat ==> |m.vertices| == 24 && forall k :: 0 <= k < 24 ==> m.indices[k] == k)
      && (!flat ==> |m.vertices| == 6)
  {
    DiamondIndicesShape();
  }

  /** CreateDiamond: build the landmark and index tables; in flat mode gather
      one vertex per index and number them 0.. in order, otherwise hand the
      tables over as they are. */
  method CreateDiamond(sqrad: real, len: real, flat: bool) returns (m: Mesh)
    ensures m == DiamondMesh(sqrad, len, flat)
  {
    var lstVerts := DiamondVertices(sqrad, len);
    var ridxs := DiamondIndices;
    DiamondIndicesShape();
    if flat {
      var flatVerts: seq<Vec3> := [];
      var j := 0;
      while j < |ridxs|
        invariant 0 <= j <= |ridxs|
        invariant flatVerts == Gathered(lstVerts, ridxs[..j])
      {
        flatVerts := flatVerts + [lstVerts[ridxs[j]]];
        j := j + 1;
      }
      var flatIdxs := new int[|flatVerts|];
      for i := 0 to flatIdxs.Length
        invariant forall k :: 0 <= k < i ==> flatIdxs[k] == k
      {
        flatIdxs[i] := i;
      }
      assert ridxs[..|ridxs|] == ridxs;
      assert flatIdxs[..] == Identities(|ridxs|);
      m := Mesh(flatVerts, flatIdxs[..], Triangles);
    } else {
      m := Mesh(lstVerts, ridxs, Triangles);
    }
  }
}
