/**
 * `LoadedMesh::new_unit_cube` (asset_common/src/asset/scene/mesh.rs): a cube
 * of side 1 centred on the origin, built face by face. Each of the six faces
 * contributes four vertices (its corners, its normal, the fixed corner UVs and
 * a zero tangent) and six indices (two triangles over those four vertices).
 * Coordinates are exact reals: every value in the cube is a small dyadic
 * fraction, so `f32` represents it exactly.
 */
module Mesh {
  import Utility

  datatype Vec2 = Vec2(x: real, y: real)
  datatype Vec3 = Vec3(x: real, y: real, z: real)

  /** `gpu::Vertex`; the tangent is the four floats of `[f32; 4]`. */
  datatype Vertex = Vertex(position: Vec3, normal: Vec3, uv: Vec2, tangent: seq<real>)

  datatype CubeFace = CubeFace(positionIndices: seq<nat>, normal: Vec3)

  datatype LoadedMesh = LoadedMesh(id: nat, vertices: seq<Vertex>, indices: seq<nat>)

  /** The eight corners: the front face (z = 0.5) counter-clockwise from bottom left, then the back face. */
  const POSITIONS: seq<Vec3> := [
    Vec3(-0.5, -0.5, 0.5), Vec3(0.5, -0.5, 0.5), Vec3(0.5, 0.5, 0.5), Vec3(-0.5, 0.5, 0.5),
    Vec3(-0.5, -0.5, -0.5), Vec3(0.5, -0.5, -0.5), Vec3(0.5, 0.5, -0.5), Vec3(-0.5, 0.5, -0.5)]

  /** Front, back, right, left, up, down: the corners of each face and its outward normal. */
  const FACES: seq<CubeFace> := [
    CubeFace([0, 1, 2, 3], Vec3(0.0, 0.0, 1.0)),
    CubeFace([5, 4, 7, 6], Vec3(0.0, 0.0, -1.0)),
    CubeFace([1, 5, 6, 2], Vec3(1.0, 0.0, 0.0)),
    CubeFace([4, 0, 3, 7], Vec3(-1.0, 0.0, 0.0)),
    CubeFace([3, 2, 6, 7], Vec3(0.0, 1.0, 0.0)),
    CubeFace([1, 0, 4, 5], Vec3(0.0, -1.0, 0.0))]

  /** The texture coordinates of a face's four corners, in corner order. */
  const UVS_FACE: seq<Vec2> := [Vec2(0.0, 1.0), Vec2(1.0, 1.0), Vec2(1.0, 0.0), Vec2(0.0, 0.0)]

  /** Two triangles over a face's four corners: bottom right, then top left. */
  const FACE_INDICES_SCHEMA: seq<nat> := [0, 1, 2, 2, 3, 0]

  const ZERO_TANGENT: seq<real> := [0.0, 0.0, 0.0, 0.0]

  /** `flat_map`'s concatenation: the blocks one after the other. */
  function Flatten<T>(blocks: seq<seq<T>>): (r: seq<T>)
  {
    if |blocks| == 0 then [] else blocks[0] + Flatten(blocks[1..])
  }

  /** Blocks of equal length `n` flatten to `n` times as many elements. */
  lemma {:induction false} FlattenLength<T>(blocks: seq<seq<T>>, n: nat)
    requires forall i | 0 <= i < |blocks| :: |blocks[i]| == n
    ensures |Flatten(blocks)| == n * |blocks|
  {
    if |blocks| > 0 {
      FlattenLength(blocks[1..], n);
      Utility.MulSucc(n, |blocks| - 1);
    }
  }

  /** With blocks of equal length `n`, block `i` starts at `n * i`. */
  lemma {:induction false} FlattenIndex<T>(blocks: seq<seq<T>>, n: nat, i: nat, j: nat)
    requires forall k | 0 <= k < |blocks| :: |blocks[k]| == n
    requires i < |blocks| && j < n
    ensures n * i + j < |Flatten(blocks)| && Flatten(blocks)[n * i + j] == blocks[i][j]
  {
    FlattenLength(blocks, n);
    if i > 0 {
      FlattenIndex(blocks[1..], n, i - 1, j);
      Utility.MulSucc(n, i - 1);
      assert |blocks[0]| == n;
    }
  }

  /** The four vertices of one face. */
  function FaceVertices(face: CubeFace): (r: seq<Vertex>)
    requires |face.positionIndices| == 4 && forall i | 0 <= i < 4 :: face.positionIndices[i] < |POSITIONS|
    ensures |r| == 4
  {
    seq(4, i requires 0 <= i < 4 =>
      Vertex(POSITIONS[face.positionIndices[i]], face.normal, UVS_FACE[i], ZERO_TANGENT))
  }

  /** The six indices of face number `faceIndex`: the schema shifted to that face's first vertex. */
  function FaceIndices(faceIndex: nat): (r: seq<nat>)
    ensures |r| == 6
  {
    seq(6, j requires 0 <= j < 6 => 4 * faceIndex + FACE_INDICES_SCHEMA[j])
  }

  /** Every face names four existing corners. */
  lemma FacesWellFormed()
    ensures |FACES| == 6
    ensures forall f | 0 <= f < 6 ::
      |FACES[f].positionIndices| == 4 && forall i | 0 <= i < 4 :: FACES[f].positionIndices[i] < |POSITIONS|
  {
  }

  /** `new_unit_cube`. */
  function NewUnitCube(id: nat): (r: LoadedMesh)
    ensures r.id == id
  {
    FacesWellFormed();
    LoadedMesh(id,
      Flatten(seq(6, f requires 0 <= f < 6 => FaceVertices(FACES[f]))),
      Flatten(seq(6, f requires 0 <= f < 6 => FaceIndices(f))))
  }

  /** Vertex `k` is corner `k % 4` of face `k / 4`, with that face's normal, the matching UV and a zero tangent. */
  lemma UnitCubeVertexLayout(id: nat)
    ensures var cube := NewUnitCube(id);
      && |cube.vertices| == 24
      && (forall k | 0 <= k < 24 ::
            cube.vertices[k] ==
              Vertex(POSITIONS[FACES[k / 4].positionIndices[k % 4]], FACES[k / 4].normal, UVS_FACE[k % 4], ZERO_TANGENT))
  {
    FacesWellFormed();
    var vs := seq(6, f requires 0 <= f < 6 => FaceVertices(FACES[f]));
    FlattenLength(vs, 4);
    forall k | 0 <= k < 24
      ensures Flatten(vs)[k] ==
        Vertex(POSITIONS[FACES[k / 4].positionIndices[k % 4]], FACES[k / 4].normal, UVS_FACE[k % 4], ZERO_TANGENT)
    {
      FlattenIndex(vs, 4, k / 4, k % 4);
    }
  }

  /** Index `k` is the schema's entry `k % 6` shifted to face `k / 6`'s first vertex, so it is below 24. */
  lemma UnitCubeIndexLayout(id: nat)
    ensures var cube := NewUnitCube(id);
      && |cube.indices| == 36
      && (forall k | 0 <= k < 36 :: cube.indices[k] == 4 * (k / 6) + FACE_INDICES_SCHEMA[k % 6])
      && (forall k | 0 <= k < 36 :: cube.indices[k] < 24)
  {
    var blocks := seq(6, f requires 0 <= f < 6 => FaceIndices(f));
    FlattenLength(blocks, 6);
    forall k | 0 <= k < 36
      ensures Flatten(blocks)[k] == 4 * (k / 6) + FACE_INDICES_SCHEMA[k % 6]
      ensures Flatten(blocks)[k] < 24
    {
      FlattenIndex(blocks, 6, k / 6, k % 6);
      assert k / 6 <= 5 && FACE_INDICES_SCHEMA[k % 6] <= 3;
    }
  }

  /**
   * The unit cube's layout: 24 vertices and 36 indices; vertex `k` is corner
   * `k % 4` of face `k / 4` with that face's normal, the matching UV and a
   * zero tangent; index `k` is the schema's entry `k % 6` shifted to face
   * `k / 6`.
   */
  predicate CubeLayout(cube: LoadedMesh)
  {
    && |FACES| == 6
    && (forall f | 0 <= f < 6 ::
          |FACES[f].positionIndices| == 4 && forall i | 0 <= i < 4 :: FACES[f].positionIndices[i] < |POSITIONS|)
    && |cube.vertices| == 24 && |cube.indices| == 36
    && (forall k | 0 <= k < 24 ::
          cube.vertices[k] ==
            Vertex(POSITIONS[FACES[k / 4].positionIndices[k % 4]], FACES[k / 4].normal, UVS_FACE[k % 4], ZERO_TANGENT))
    && (forall k | 0 <= k < 36 :: cube.indices[k] == 4 * (k / 6) + FACE_INDICES_SCHEMA[k % 6])
  }

  /** `new_unit_cube` builds that layout, and every index names one of its vertices. */
  lemma UnitCubeLayout(id: nat)
    ensures CubeLayout(NewUnitCube(id))
    ensures forall k | 0 <= k < |NewUnitCube(id).indices| :: NewUnitCube(id).indices[k] < |NewUnitCube(id).vertices|
  {
    FacesWellFormed();
    UnitCubeVertexLayout(id);
    UnitCubeIndexLayout(id);
  }

  /** Dot product, to say on which plane a point lies. */
  function Dot(a: Vec3, b: Vec3): real
  {
    a.x * b.x + a.y * b.y + a.z * b.z
  }

  /**
   * Every vertex lies on the plane of its face: its position projected on
   * its normal is half the side. The normals are unit vectors, and the
   * tangent is zero everywhere.
   */
  lemma UnitCubeVerticesOnTheirFaces(id: nat)
    ensures var cube := NewUnitCube(id);
      forall k | 0 <= k < |cube.vertices| ::
        && Dot(cube.vertices[k].position, cube.vertices[k].normal) == 0.5
        && Dot(cube.vertices[k].normal, cube.vertices[k].normal) == 1.0
        && cube.vertices[k].tangent == ZERO_TANGENT
  {
    UnitCubeLayout(id);
    var cube := NewUnitCube(id);
    forall k | 0 <= k < |cube.vertices|
      ensures Dot(cube.vertices[k].position, cube.vertices[k].normal) == 0.5
      ensures Dot(cube.vertices[k].normal, cube.vertices[k].normal) == 1.0
    {
      FaceOnItsPlane(k / 4, k % 4);
    }
  }

  /** Corner `i` of face `f` lies on the face's plane, at distance 0.5 along its unit normal. */
  lemma FaceOnItsPlane(f: nat, i: nat)
    requires f < 6 && i < 4
    ensures Dot(POSITIONS[FACES[f].positionIndices[i]], FACES[f].normal) == 0.5
    ensures Dot(FACES[f].normal, FACES[f].normal) == 1.0
  {
    var face := FACES[f];
    var p := POSITIONS[face.positionIndices[i]];
    if f == 0 {
      assert face.normal == Vec3(0.0, 0.0, 1.0) && p.z == 0.5;
    } else if f == 1 {
      assert face.normal == Vec3(0.0, 0.0, -1.0) && p.z == -0.5;
    } else if f == 2 {
      assert face.normal == Vec3(1.0, 0.0, 0.0) && p.x == 0.5;
    } else if f == 3 {
      assert face.normal == Vec3(-1.0, 0.0, 0.0) && p.x == -0.5;
    } else if f == 4 {
      assert face.normal == Vec3(0.0, 1.0, 0.0) && p.y == 0.5;
    } else {
      assert face.normal == Vec3(0.0, -1.0, 0.0) && p.y == -0.5;
    }
  }

  datatype Triangle = Triangle(a: nat, b: nat, c: nat)

  /** Triangle `t` of an index list: indices `3t`, `3t + 1` and `3t + 2`. */
  function TriangleAt(indices: seq<nat>, t: nat): Triangle
    requires 3 * t + 2 < |indices|
  {
    Triangle(indices[3 * t], indices[3 * t + 1], indices[3 * t + 2])
  }

  /** Triangle `t` uses three distinct vertices of face `t / 2`, all carrying that face's normal. */
  predicate TriangleOnFace(cube: LoadedMesh, t: nat)
    requires 3 * t + 2 < |cube.indices| && t / 2 < |FACES|
  {
    var tri := TriangleAt(cube.indices, t);
    && tri.a != tri.b && tri.b != tri.c && tri.a != tri.c
    && 4 * (t / 2) <= tri.a < 4 * (t / 2) + 4
    && 4 * (t / 2) <= tri.b < 4 * (t / 2) + 4
    && 4 * (t / 2) <= tri.c < 4 * (t / 2) + 4
    && tri.a < |cube.vertices| && tri.b < |cube.vertices| && tri.c < |cube.vertices|
    && cube.vertices[tri.a].normal == FACES[t / 2].normal
    && cube.vertices[tri.b].normal == FACES[t / 2].normal
    && cube.vertices[tri.c].normal == FACES[t / 2].normal
  }

  /**
   * Each of the twelve triangles uses three distinct vertices of face `t / 2`,
   * so its corners share that face's normal.
   */
  lemma UnitCubeTrianglesStayOnOneFace(id: nat)
    ensures |NewUnitCube(id).indices| == 36
    ensures forall t | 0 <= t < 12 :: TriangleOnFace(NewUnitCube(id), t)
  {
    var cube := NewUnitCube(id);
    UnitCubeLayout(id);
    forall t | 0 <= t < 12
      ensures TriangleOnFace(cube, t)
    {
      TriangleOfLayout(cube, t);
    }
  }

  lemma TriangleOfLayout(cube: LoadedMesh, t: nat)
    requires CubeLayout(cube) && t < 12
    ensures 3 * t + 2 < |cube.indices| && TriangleOnFace(cube, t)
  {
    TrianglePositions(t);
    var f, j := t / 2, 3 * (t % 2);
    var tri := TriangleAt(cube.indices, t);
    assert tri.a == 4 * f + FACE_INDICES_SCHEMA[j];
    assert tri.b == 4 * f + FACE_INDICES_SCHEMA[j + 1];
    assert tri.c == 4 * f + FACE_INDICES_SCHEMA[j + 2];
    assert tri.a / 4 == f && tri.b / 4 == f && tri.c / 4 == f;
    assert cube.vertices[tri.a].normal == FACES[tri.a / 4].normal;
    assert cube.vertices[tri.b].normal == FACES[tri.b / 4].normal;
    assert cube.vertices[tri.c].normal == FACES[tri.c / 4].normal;
  }

  /** Where the corners of triangle `t` sit: face `t / 2`, schema entries from `3 * (t % 2)`. */
  lemma TrianglePositions(t: nat)
    requires t < 12
    ensures var f, j := t / 2, 3 * (t % 2);
      && 3 * t / 6 == f && (3 * t + 1) / 6 == f && (3 * t + 2) / 6 == f
      && 3 * t % 6 == j && (3 * t + 1) % 6 == j + 1 && (3 * t + 2) % 6 == j + 2
      && FACE_INDICES_SCHEMA[j] != FACE_INDICES_SCHEMA[j + 1]
      && FACE_INDICES_SCHEMA[j + 1] != FACE_INDICES_SCHEMA[j + 2]
      && FACE_INDICES_SCHEMA[j] != FACE_INDICES_SCHEMA[j + 2]
      && (4 * f + FACE_INDICES_SCHEMA[j]) / 4 == f
      && (4 * f + FACE_INDICES_SCHEMA[j + 1]) / 4 == f
      && (4 * f + FACE_INDICES_SCHEMA[j + 2]) / 4 == f
  {
  }
}
