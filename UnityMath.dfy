/** The small part of the engine's maths library that the IK chain and the
    mesh helpers use. Coordinates are reals; the rotation operations that the
    engine computes in floating point are not defined here but handed in as an
    `Engine` value, so every proof about the chain holds for any engine. */
module UnityMath {

  datatype Option<T> = None | Some(value: T)

  datatype Vec3 = Vec3(x: real, y: real, z: real)

  const Zero: Vec3 := Vec3(0.0, 0.0, 0.0)

  function Add(a: Vec3, b: Vec3): Vec3 {
    Vec3(a.x + b.x, a.y + b.y, a.z + b.z)
  }

  function Sub(a: Vec3, b: Vec3): Vec3 {
    Vec3(a.x - b.x, a.y - b.y, a.z - b.z)
  }

  /** A point on the local forward (Z) axis, where a child joint sits. */
  function Forward(len: real): Vec3 {
    Vec3(0.0, 0.0, len)
  }

  /** A rotation, stored as the engine stores it (x, y, z, w). */
  datatype Quaternion = Quaternion(x: real, y: real, z: real, w: real)

  const Identity: Quaternion := Quaternion(0.0, 0.0, 0.0, 1.0)

  /** The engine operations the solvers call, left uninterpreted:
      - compose(a, b) is the product a * b (apply b, then a);
      - inverse(q) is the inverse rotation;
      - fromTo(u, v) is the shortest-arc rotation taking direction u to v;
      - lerp(a, b, t) interpolates from a to b by t;
      - rotate(q, v) is q applied to the vector v;
      - magnitude(v) is the length of v. */
  datatype Engine = Engine(
    compose: (Quaternion, Quaternion) -> Quaternion,
    inverse: Quaternion -> Quaternion,
    fromTo: (Vec3, Vec3) -> Quaternion,
    lerp: (Quaternion, Quaternion, real) -> Quaternion,
    rotate: (Quaternion, Vec3) -> Vec3,
    magnitude: Vec3 -> real)

  /** How a mesh's index list is read: in threes as triangles or in twos as line segments. */
  datatype MeshTopology = Triangles | Lines

  /** A mesh with one sub-mesh: its vertex positions, the index list that
      stitches them, and how that list is read. Normals and other vertex
      attributes are not part of this model. */
  datatype Mesh = Mesh(vertices: seq<Vec3>, indices: seq<int>, topology: MeshTopology)

  /** Every index of the mesh names one of its vertices. */
  predicate IndicesInRange(m: Mesh) {
    forall k :: 0 <= k < |m.indices| ==> 0 <= m.indices[k] < |m.vertices|
  }

  function Min(a: real, b: real): (r: real)
    ensures r <= a && r <= b
    ensures r == a || r == b
  {
    if a < b then a else b
  }

  /** The value a slider control hands back: the requested value held to [lo, hi]. */
  function Clamp(v: real, lo: real, hi: real): (r: real)
    requires lo <= hi
    ensures lo <= r <= hi
    ensures lo <= v <= hi ==> r == v
    ensures v < lo ==> r == lo
    ensures hi < v ==> r == hi
  {
    if v < lo then lo else if hi < v then hi else v
  }
}
