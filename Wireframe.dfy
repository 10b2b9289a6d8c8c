/** The wireframe converter: at start it replaces the mesh of its object with
    a copy that draws every triangle edge as a line segment. */
module Wireframe {
  import opened UnityMath

  /** The component that holds the mesh an object draws. */
  class MeshFilter {
    var mesh: Mesh

    constructor (m: Mesh)
      ensures mesh == m
    {
      mesh := m;
    }
  }

  /** The line list of a triangle list: triangle (a, b, c) becomes the three
      edges a-b, b-c and c-a. */
  function LineIndices(tri: seq<int>): (r: seq<int>)
    requires |tri| % 3 == 0
    ensures |r| == 2 * |tri|
    decreases |tri|
  {
    if tri == [] then []
    else
      var n := |tri| - 3;
      LineIndices(tri[..n]) + [tri[n], tri[n + 1], tri[n + 1], tri[n + 2], tri[n + 2], tri[n]]
  }

  /** One more triangle appends its three edges. */
  lemma LineIndicesStep(tri: seq<int>, i: nat)
    requires i % 3 == 0 && i + 3 <= |tri|
    ensures LineIndices(tri[..i + 3]) ==
      LineIndices(tri[..i]) + [tri[i], tri[i + 1], tri[i + 1], tri[i + 2], tri[i + 2], tri[i]]
  {
    assert tri[..i + 3][..i] == tri[..i];
  }

  /** Triangle k of the input, (a, b, c) = tri[3k..3k+3], is the slice
      (a, b, b, c, c, a) at 6k of the output. */
  lemma {:induction false} LineIndicesSlice(tri: seq<int>, k: nat)
    requires |tri| % 3 == 0 && 3 * k + 3 <= |tri|
    ensures var r := LineIndices(tri);
      var a, b, c := tri[3 * k], tri[3 * k + 1], tri[3 * k + 2];
      r[6 * k .. 6 * k + 6] == [a, b, b, c, c, a]
    decreases |tri|
  {
    var n := |tri| - 3;
    var rest := LineIndices(tri[..n]);
    assert LineIndices(tri) == rest + [tri[n], tri[n + 1], tri[n + 1], tri[n + 2], tri[n + 2], tri[n]];
    if 3 * k < n {
      LineIndicesSlice(tri[..n], k);
      assert LineIndices(tri)[6 * k .. 6 * k + 6] == rest[6 * k .. 6 * k + 6];
    }
  }

  /** Every line index is one of the triangle indices. */
  lemma {:induction false} LineIndicesFromInput(tri: seq<int>)
    requires |tri| % 3 == 0
    ensures forall k :: 0 <= k < 2 * |tri| ==> LineIndices(tri)[k] in tri
    decreases |tri|
  {
    if tri != [] {
      var n := |tri| - 3;
      LineIndicesFromInput(tri[..n]);
      var rest := LineIndices(tri[..n]);
      forall k | 0 <= k < 2 * |tri|
        ensures LineIndices(tri)[k] in tri
      {
        if k < |rest| {
          assert rest[k] in tri[..n];
        }
      }
    }
  }

  /** The lines use only the vertices the triangles use: when every triangle
      index names a vertex, so does every line index. */
  lemma LineIndicesInRange(m: Mesh)
    requires |m.indices| % 3 == 0 && IndicesInRange(m)
    ensures IndicesInRange(Mesh(m.vertices, LineIndices(m.indices), Lines))
  {
    LineIndicesFromInput(m.indices);
  }

  /** The wireframe copy of a mesh: the same vertices, the line list of its
      triangles, read as lines. None when the index count is not a multiple
      of three, where the conversion loop reads past the end. */
  function WireframeOf(m: Mesh): (r: Option<Mesh>)
    ensures r.None? <==> |m.indices| % 3 != 0
    ensures r.Some? ==>
      && r.value.vertices == m.vertices
      && r.value.topology == Lines
      && |r.value.indices| == 2 * |m.indices|
  {
    if |m.indices| % 3 != 0 then None
    else Some(Mesh(m.vertices, LineIndices(m.indices), Lines))
  }

  /** Start: with no mesh filter nothing happens. Otherwise the indices are
      walked three at a time and the filter's mesh is replaced by the
      wireframe copy; an index count that is not a multiple of three makes
      the walk read out of range, which `faulted` reports, before the mesh
      is replaced. */
  method Start(mf: MeshFilter?) returns (faulted: bool)
    modifies mf
    ensures mf == null ==> !faulted
    ensures mf != null ==> (faulted <==> WireframeOf(old(mf.mesh)).None?)
    ensures mf != null ==> mf.mesh == if faulted then old(mf.mesh) else WireframeOf(old(mf.mesh)).value
  {
    faulted := false;
    if mf == null {
      return;
    }
    var mToCpy := mf.mesh;
    var verts := mToCpy.vertices;
    var lineIndices: seq<int> := [];
    var origIndices := mToCpy.indices;
    var i := 0;
    while i < |origIndices|
      invariant 0 <= i <= |origIndices| && i % 3 == 0
      invariant lineIndices == LineIndices(origIndices[..i])
      invariant mf.mesh == mToCpy
      decreases |origIndices| - i
    {
      if i + 2 >= |origIndices| {
        // origIndices[i + 1] or origIndices[i + 2] is out of range
        faulted := true;
        return;
      }
      LineIndicesStep(origIndices, i);
      lineIndices := lineIndices + [origIndices[i], origIndices[i + 1], origIndices[i + 1],
                                    origIndices[i + 2], origIndices[i + 2], origIndices[i]];
      i := i + 3;
    }
    assert origIndices[..i] == origIndices;
    mf.mesh := Mesh(verts, lineIndices, Lines);
  }
}
