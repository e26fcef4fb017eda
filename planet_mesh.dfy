/**
 * The cube-sphere mesh of src/planet/planet_mesh.rs: one `resolution x resolution` grid per
 * cube face, projected onto the sphere, and the six faces concatenated into one mesh.
 *
 * Vertex coordinates are idealised over `real`; `normalize`, `atan2` and `asin` are the
 * parameters `ops`. The index buffers are exact.
 */
module PlanetMesh {
  import opened Vectors
  import opened Arith

  /** `planet::PlanetMesh`: grid points per face edge and sphere radius. */
  datatype Planet = Planet(resolution: nat, size: real)

  /** The float operations the mesh uses and this model leaves abstract. */
  datatype FloatOps = FloatOps(normalize: Vec3 -> Vec3, atan2: (real, real) -> real, asin: real -> real)

  /** `Vec3::Y, NEG_Y, NEG_X, X, Z, NEG_Z`, in the order the faces are emitted. */
  const Directions: seq<Vec3> := [Vec3(0.0, 1.0, 0.0), Vec3(0.0, -1.0, 0.0), Vec3(-1.0, 0.0, 0.0),
                                  Vec3(1.0, 0.0, 0.0), Vec3(0.0, 0.0, 1.0), Vec3(0.0, 0.0, -1.0)]

  datatype Mesh = Mesh(indices: seq<nat>, positions: seq<Vec3>, normals: seq<Vec3>, uvs: seq<Vec2>)

  // ---------------------------------------------------------------------------
  // One face

  /** `local_up.yzx()`. */
  function AxisA(up: Vec3): Vec3 { Yzx(up) }

  /** `local_up.cross(axis_a)`. */
  function AxisB(up: Vec3): Vec3 { Cross(up, AxisA(up)) }

  /** `x as f32 / (resolution - 1) as f32`. */
  function Percent(x: nat, resolution: nat): real
    requires resolution >= 2
  {
    x as real / (resolution - 1) as real
  }

  /** `local_up + (percent_x - 0.5) * 2 * axis_a + (percent_y - 0.5) * 2 * axis_b`. */
  function CubePoint(up: Vec3, percentX: real, percentY: real): Vec3 {
    Add(Add(up, Scale((percentX - 0.5) * 2.0, AxisA(up))), Scale((percentY - 0.5) * 2.0, AxisB(up)))
  }

  /** The grid point `(x, y)` of face `up` on the unit cube. */
  function PointOnUnitCube(up: Vec3, resolution: nat, x: nat, y: nat): Vec3
    requires resolution >= 2
  {
    CubePoint(up, Percent(x, resolution), Percent(y, resolution))
  }

  /** The vertex pushed for grid point `(x, y)`: the cube point projected to the sphere of radius `size`. */
  function FaceVertex(up: Vec3, resolution: nat, size: real, ops: FloatOps, x: nat, y: nat): Vec3
    requires resolution >= 2
  {
    Scale(size, ops.normalize(PointOnUnitCube(up, resolution, x, y)))
  }

  /** The UV pushed for grid point `(x, y)`, with the seam correction of `uv_x < 0`. */
  function FaceUv(up: Vec3, resolution: nat, size: real, ops: FloatOps, x: nat, y: nat): Vec2
    requires resolution >= 2
  {
    var p := FaceVertex(up, resolution, size, ops, x, y);
    var uvX := 0.5 + ops.atan2(p.x, p.z) / (2.0 * Pi);
    var uvY := 0.5 - ops.asin(p.y) / Pi;
    Vec2(if uvX < 0.0 then uvX + 1.0 else uvX, uvY)
  }

  /** `i = x + y * resolution`. */
  function VertexIndex(resolution: nat, x: nat, y: nat): (i: nat)
    requires x < resolution && y < resolution
    ensures i < resolution * resolution
  {
    MulLe(y, resolution - 1, resolution);
    x + y * resolution
  }

  /** The numbering is row-major without clashes: the index of `(x, y)` decodes back to `x` and `y`. */
  lemma VertexIndexInverse(resolution: nat, x: nat, y: nat)
    requires x < resolution && y < resolution
    ensures VertexIndex(resolution, x, y) % resolution == x && VertexIndex(resolution, x, y) / resolution == y
  {
    DivMod(y, resolution, x);
  }

  /** The numbering has no gaps: every index below `res^2` is the index of some grid point. */
  lemma VertexIndexCovers(resolution: nat, i: nat) returns (x: nat, y: nat)
    requires i < resolution * resolution
    ensures x < resolution && y < resolution && VertexIndex(resolution, x, y) == i
  {
    QuotientBound(i, resolution);
    x, y := i % resolution, i / resolution;
  }

  /** The six indices of the cell whose lower corner is `i`: triangles `(i, i+res+1, i+res)` and `(i, i+1, i+res+1)`. */
  function QuadIndices(resolution: nat, i: nat): seq<nat> {
    [i, i + resolution + 1, i + resolution, i, i + 1, i + resolution + 1]
  }

  /** Number of indices of one face: six per cell. */
  function FaceIndexCount(resolution: nat): nat
    requires resolution >= 1
  {
    6 * ((resolution - 1) * (resolution - 1))
  }

  /** Where entry `k` of cell `(cx, cy)` sits in the index buffer: cells in row-major order, six entries each. */
  function Entry(resolution: nat, cx: nat, cy: nat, k: nat): (e: nat)
    requires resolution >= 2 && cx < resolution - 1 && cy < resolution - 1 && k < 6
    ensures e < FaceIndexCount(resolution)
  {
    CellBound(cx, cy, resolution - 1);
    6 * (cx + cy * (resolution - 1)) + k
  }

  /** The position of a cell entry determines the cell and the entry: no two entries share a position. */
  lemma EntryInverse(resolution: nat, cx: nat, cy: nat, k: nat)
    requires resolution >= 2 && cx < resolution - 1 && cy < resolution - 1 && k < 6
    ensures var j := Entry(resolution, cx, cy, k);
            j % 6 == k && j / 6 % (resolution - 1) == cx && j / 6 / (resolution - 1) == cy
  {
    var m := resolution - 1;
    var c := cx + cy * m;
    DivMod(c, 6, k);
    DivMod(cy, m, cx);
    assert Entry(resolution, cx, cy, k) == c * 6 + k;
  }

  /** Every position of a face's index buffer belongs to some cell entry: the buffer has no gaps. */
  lemma EntryCovers(resolution: nat, j: nat) returns (cx: nat, cy: nat, k: nat)
    requires resolution >= 2 && j < FaceIndexCount(resolution)
    ensures cx < resolution - 1 && cy < resolution - 1 && k < 6 && j == Entry(resolution, cx, cy, k)
  {
    var m := resolution - 1;
    var q := j / 6;
    k := j % 6;
    assert j == 6 * q + k;
    QuotientBound(q, m);
    cx, cy := q % m, q / m;
  }

  /** Every index a cell emits names one of the face's `resolution^2` vertices. */
  lemma CellIndicesInRange(resolution: nat, cx: nat, cy: nat, k: nat)
    requires resolution >= 2 && cx < resolution - 1 && cy < resolution - 1 && k < 6
    ensures QuadIndices(resolution, VertexIndex(resolution, cx, cy))[k] < resolution * resolution
  {
    MulLe(cy, resolution - 2, resolution);
    assert VertexIndex(resolution, cx, cy) + resolution + 1 <= (resolution - 2) + (resolution - 2) * resolution + resolution + 1;
  }

  /** Triangle `(t0, t1, t2)` traverses the directed edge `a -> b`. */
  predicate HasEdge(t0: nat, t1: nat, t2: nat, a: nat, b: nat) {
    (t0 == a && t1 == b) || (t1 == a && t2 == b) || (t2 == a && t0 == b)
  }

  /**
   * The two triangles of a cell share the diagonal `i -> i+res+1`: the first traverses it
   * forwards and the second backwards, so both wind the same way round the cell.
   */
  lemma QuadSharesDiagonal(resolution: nat, i: nat)
    requires resolution >= 2
    ensures var q := QuadIndices(resolution, i);
            q[0] == q[3] == i && q[1] == q[5] == i + resolution + 1 &&
            q[2] == i + resolution && q[4] == i + 1
    ensures var q := QuadIndices(resolution, i);
            HasEdge(q[0], q[1], q[2], i, i + resolution + 1) && !HasEdge(q[0], q[1], q[2], i + resolution + 1, i) &&
            HasEdge(q[3], q[4], q[5], i + resolution + 1, i) && !HasEdge(q[3], q[4], q[5], i, i + resolution + 1)
  {
  }

  /** The grid points numbered below `|vertices|` have their vertex and UV in place. */
  predicate GridFilled(resolution: nat, up: Vec3, size: real, ops: FloatOps, vertices: seq<Vec3>, uvs: seq<Vec2>)
    requires resolution >= 2
  {
    forall x, y :: 0 <= x < resolution && 0 <= y < resolution && VertexIndex(resolution, x, y) < |vertices| ==>
      VertexIndex(resolution, x, y) < |uvs| &&
      vertices[VertexIndex(resolution, x, y)] == FaceVertex(up, resolution, size, ops, x, y) &&
      uvs[VertexIndex(resolution, x, y)] == FaceUv(up, resolution, size, ops, x, y)
  }

  /** Pushing the vertex and UV of the next grid point keeps the grid filled. */
  lemma GridStep(resolution: nat, up: Vec3, size: real, ops: FloatOps, vertices: seq<Vec3>, uvs: seq<Vec2>, x: nat, y: nat)
    requires resolution >= 2 && x < resolution && y < resolution
    requires |vertices| == |uvs| == VertexIndex(resolution, x, y)
    requires GridFilled(resolution, up, size, ops, vertices, uvs)
    ensures GridFilled(resolution, up, size, ops, vertices + [FaceVertex(up, resolution, size, ops, x, y)],
                       uvs + [FaceUv(up, resolution, size, ops, x, y)])
  {
    forall x', y' | 0 <= x' < resolution && 0 <= y' < resolution && VertexIndex(resolution, x', y') == VertexIndex(resolution, x, y)
      ensures x' == x && y' == y
    {
      VertexIndexInverse(resolution, x, y);
      VertexIndexInverse(resolution, x', y');
    }
  }

  /** One step of the scan: push the vertex and UV of grid point `(x, y)`. */
  method PushGridPoint(resolution: nat, localUp: Vec3, size: real, ops: FloatOps,
                       vertices: seq<Vec3>, uvs: seq<Vec2>, x: nat, y: nat)
    returns (vertices': seq<Vec3>, uvs': seq<Vec2>)
    requires resolution >= 2 && x < resolution && y < resolution
    requires |vertices| == |uvs| == x + y * resolution
    requires GridFilled(resolution, localUp, size, ops, vertices, uvs)
    ensures |vertices'| == |vertices| + 1 && |uvs'| == |uvs| + 1
    ensures GridFilled(resolution, localUp, size, ops, vertices', uvs')
  {
    GridStep(resolution, localUp, size, ops, vertices, uvs, x, y);
    vertices' := vertices + [FaceVertex(localUp, resolution, size, ops, x, y)];
    uvs' := uvs + [FaceUv(localUp, resolution, size, ops, x, y)];
  }

  /** The cells whose six entries lie below `|triangles|` have their two triangles in place. */
  predicate CellsFilled(resolution: nat, triangles: seq<nat>)
    requires resolution >= 2
  {
    forall cx, cy, k :: 0 <= cx < resolution - 1 && 0 <= cy < resolution - 1 && 0 <= k < 6 &&
                        Entry(resolution, cx, cy, k) < |triangles| ==>
      triangles[Entry(resolution, cx, cy, k)] == QuadIndices(resolution, VertexIndex(resolution, cx, cy))[k]
  }

  /** The buffers of one face as `face` leaves them. */
  predicate IsFace(resolution: nat, up: Vec3, size: real, ops: FloatOps,
                   vertices: seq<Vec3>, triangles: seq<nat>, uvs: seq<Vec2>)
    requires resolution >= 2
  {
    |vertices| == resolution * resolution && |uvs| == resolution * resolution &&
    GridFilled(resolution, up, size, ops, vertices, uvs) &&
    |triangles| == FaceIndexCount(resolution) && CellsFilled(resolution, triangles)
  }

  /** Every index of a filled index buffer names one of the face's `resolution^2` vertices. */
  lemma FaceIndicesInRange(resolution: nat, triangles: seq<nat>)
    requires resolution >= 2 && |triangles| == FaceIndexCount(resolution) && CellsFilled(resolution, triangles)
    ensures forall j :: 0 <= j < |triangles| ==> triangles[j] < resolution * resolution
  {
    forall j | 0 <= j < |triangles|
      ensures triangles[j] < resolution * resolution
    {
      FaceIndexInRange(resolution, triangles, j);
    }
  }

  /** Index `j` of a filled index buffer is an entry of some cell, hence in range. */
  lemma FaceIndexInRange(resolution: nat, triangles: seq<nat>, j: nat)
    requires resolution >= 2 && |triangles| == FaceIndexCount(resolution) && CellsFilled(resolution, triangles)
    requires j < |triangles|
    ensures triangles[j] < resolution * resolution
  {
    var cx, cy, k := EntryCovers(resolution, j);
    assert triangles[j] == QuadIndices(resolution, VertexIndex(resolution, cx, cy))[k];
    CellIndicesInRange(resolution, cx, cy, k);
  }

  /** The cells completed before grid point `(x, y)` of the y-outer, x-inner scan. */
  function CellsBefore(resolution: nat, x: nat, y: nat): nat
    requires resolution >= 2
  {
    if y < resolution - 1 then y * (resolution - 1) + (if x < resolution - 1 then x else resolution - 1)
    else (resolution - 1) * (resolution - 1)
  }

  /** Advancing the scan by one grid point completes one more cell exactly when the point is a lower-left cell corner. */
  lemma CellsBeforeStep(resolution: nat, x: nat, y: nat)
    requires resolution >= 2 && x < resolution && y < resolution
    ensures CellsBefore(resolution, x + 1, y) ==
            CellsBefore(resolution, x, y) + (if x != resolution - 1 && y != resolution - 1 then 1 else 0)
    ensures x == resolution - 1 && y + 1 < resolution ==> CellsBefore(resolution, x + 1, y) == CellsBefore(resolution, 0, y + 1)
  {
    if y + 1 < resolution - 1 {
      assert (y + 1) * (resolution - 1) == y * (resolution - 1) + (resolution - 1);
    }
  }

  /** Appending the six indices of cell `(x, y)` at its slot keeps the cells filled. */
  lemma CellStep(resolution: nat, x: nat, y: nat, before: seq<nat>)
    requires resolution >= 2 && x < resolution - 1 && y < resolution - 1
    requires |before| == Entry(resolution, x, y, 0)
    requires CellsFilled(resolution, before)
    ensures CellsFilled(resolution, before + QuadIndices(resolution, VertexIndex(resolution, x, y)))
  {
    var after := before + QuadIndices(resolution, VertexIndex(resolution, x, y));
    forall cx, cy, k | 0 <= cx < resolution - 1 && 0 <= cy < resolution - 1 && 0 <= k < 6 &&
                       |before| <= Entry(resolution, cx, cy, k) < |after|
      ensures cx == x && cy == y && Entry(resolution, cx, cy, k) == |before| + k
    {
      var j := Entry(resolution, cx, cy, k);
      assert j == Entry(resolution, x, y, j - |before|);
      EntryInverse(resolution, x, y, j - |before|);
      EntryInverse(resolution, cx, cy, k);
    }
  }

  /** One step of the scan at a lower-left cell corner: push the cell's two triangles. */
  method PushCell(resolution: nat, triangles: seq<nat>, x: nat, y: nat) returns (triangles': seq<nat>)
    requires resolution >= 2 && x < resolution - 1 && y < resolution - 1
    requires |triangles| == 6 * (x + y * (resolution - 1))
    requires CellsFilled(resolution, triangles)
    ensures |triangles'| == |triangles| + 6
    ensures CellsFilled(resolution, triangles')
  {
    var i := VertexIndex(resolution, x, y);
    triangles' := triangles + [i, i + resolution + 1, i + resolution];
    triangles' := triangles' + [i, i + 1, i + resolution + 1];
    assert triangles' == triangles + QuadIndices(resolution, i);
    CellStep(resolution, x, y, triangles);
  }

  /** One pass of the inner loop of `face`: the grid points of row `y`, left to right. */
  method FaceRow(resolution: nat, localUp: Vec3, size: real, ops: FloatOps, y: nat,
                 vertices: seq<Vec3>, triangles: seq<nat>, uvs: seq<Vec2>)
    returns (vertices': seq<Vec3>, triangles': seq<nat>, uvs': seq<Vec2>)
    requires resolution >= 2 && y < resolution
    requires |vertices| == y * resolution && |uvs| == y * resolution
    requires GridFilled(resolution, localUp, size, ops, vertices, uvs)
    requires |triangles| == 6 * CellsBefore(resolution, 0, y)
    requires CellsFilled(resolution, triangles)
    ensures |vertices'| == (y + 1) * resolution && |uvs'| == (y + 1) * resolution
    ensures GridFilled(resolution, localUp, size, ops, vertices', uvs')
    ensures |triangles'| == 6 * CellsBefore(resolution, resolution, y)
    ensures CellsFilled(resolution, triangles')
  {
    vertices', triangles', uvs' := vertices, triangles, uvs;
    for x := 0 to resolution
      invariant |vertices'| == y * resolution + x && |uvs'| == y * resolution + x
      invariant GridFilled(resolution, localUp, size, ops, vertices', uvs')
      invariant |triangles'| == 6 * CellsBefore(resolution, x, y)
      invariant CellsFilled(resolution, triangles')
    {
      vertices', uvs' := PushGridPoint(resolution, localUp, size, ops, vertices', uvs', x, y);
      if x != resolution - 1 && y != resolution - 1 {
        triangles' := PushCell(resolution, triangles', x, y);
      }
      CellsBeforeStep(resolution, x, y);
    }
  }

  /**
   * `face`: the grid points in row-major order (y outer, x inner), vertex `(x, y)` at index
   * `x + y * resolution`, and six indices for every cell with `x, y < resolution - 1`.
   */
  method Face(resolution: nat, localUp: Vec3, size: real, ops: FloatOps)
    returns (vertices: seq<Vec3>, triangles: seq<nat>, uvs: seq<Vec2>)
    requires resolution >= 2
    ensures IsFace(resolution, localUp, size, ops, vertices, triangles, uvs)
  {
    vertices, triangles, uvs := [], [], [];
    for y := 0 to resolution
      invariant |vertices| == y * resolution && |uvs| == y * resolution
      invariant GridFilled(resolution, localUp, size, ops, vertices, uvs)
      invariant |triangles| == 6 * CellsBefore(resolution, 0, y)
      invariant CellsFilled(resolution, triangles)
    {
      vertices, triangles, uvs := FaceRow(resolution, localUp, size, ops, y, vertices, triangles, uvs);
      CellsBeforeStep(resolution, resolution - 1, y);
    }
  }

  // ---------------------------------------------------------------------------
  // Concatenation of the six faces

  /** Position `k` of block `f` when blocks of `size` entries are laid end to end. */
  function Slot(blocks: nat, size: nat, f: nat, k: nat): (s: nat)
    requires f < blocks && k < size
    ensures f * size <= s < (f + 1) * size && s < blocks * size
  {
    MulLe(f + 1, blocks, size);
    f * size + k
  }

  /** The blocks cover the concatenation: every position below `blocks * size` is some block's slot. */
  lemma SlotCovers(blocks: nat, size: nat, s: nat) returns (f: nat, k: nat)
    requires s < blocks * size
    ensures f < blocks && k < size && Slot(blocks, size, f, k) == s
  {
    QuotientBelow(s, blocks, size);
    f, k := s / size, s % size;
  }

  /** `flat_map` over the lists in order. */
  function Flatten<T>(lists: seq<seq<T>>): seq<T> {
    if |lists| == 0 then [] else Flatten(lists[..|lists| - 1]) + lists[|lists| - 1]
  }

  /** Lists of one common length `n` flatten to blocks of `n`: entry `k` of list `f` lands at slot `(f, k)`. */
  lemma {:induction false} FlattenUniform<T>(lists: seq<seq<T>>, n: nat)
    requires forall f :: 0 <= f < |lists| ==> |lists[f]| == n
    ensures |Flatten(lists)| == |lists| * n
    ensures forall f, k :: 0 <= f < |lists| && 0 <= k < n ==> Flatten(lists)[Slot(|lists|, n, f, k)] == lists[f][k]
  {
    if |lists| > 0 {
      var init := lists[..|lists| - 1];
      FlattenUniform(init, n);
      assert |Flatten(lists)| == (|lists| - 1) * n + n;
      forall f, k | 0 <= f < |lists| && 0 <= k < n
        ensures Flatten(lists)[Slot(|lists|, n, f, k)] == lists[f][k]
      {
        if f < |lists| - 1 {
          assert Slot(|lists|, n, f, k) == Slot(|init|, n, f, k);
          assert init[f] == lists[f];
        }
      }
    }
  }

  /**
   * `local_idx + face_id * num_indices` for every index of face `f`: a local index below
   * `numIndices` moves into face `f`'s own block `[f * numIndices, (f + 1) * numIndices)`.
   */
  function ShiftFaces(lists: seq<seq<nat>>, numIndices: nat): (r: seq<seq<nat>>)
    ensures |r| == |lists|
    ensures forall f :: 0 <= f < |lists| ==> |r[f]| == |lists[f]|
    ensures forall f, k :: 0 <= f < |lists| && 0 <= k < |lists[f]| ==> r[f][k] == lists[f][k] + f * numIndices
    ensures forall f, k :: 0 <= f < |lists| && 0 <= k < |lists[f]| && lists[f][k] < numIndices ==>
              f * numIndices <= r[f][k] < (f + 1) * numIndices
  {
    seq(|lists|, f requires 0 <= f < |lists| =>
      seq(|lists[f]|, k requires 0 <= k < |lists[f]| => lists[f][k] + f * numIndices))
  }

  /** The mesh attributes made from the per-face lists: normals repeat the positions. */
  function Assemble(resolution: nat, vertLists: seq<seq<Vec3>>, triangleLists: seq<seq<nat>>, uvLists: seq<seq<Vec2>>): Mesh {
    var vertices := Flatten(vertLists);
    Mesh(Flatten(ShiftFaces(triangleLists, resolution * resolution)), vertices, vertices, Flatten(uvLists))
  }

  /**
   * `From<PlanetMesh> for Mesh`: one face per direction, positions and UVs concatenated in
   * direction order, and the indices of face `f` shifted by `f * resolution^2`.
   */
  method MeshFromPlanet(planet: Planet, ops: FloatOps) returns (mesh: Mesh)
    requires planet.resolution >= 2
    ensures var n := planet.resolution * planet.resolution;
            |mesh.positions| == 6 * n && |mesh.uvs| == 6 * n && mesh.normals == mesh.positions
    ensures var res := planet.resolution;
            forall f, x, y :: 0 <= f < 6 && 0 <= x < res && 0 <= y < res ==>
              mesh.positions[Slot(6, res * res, f, VertexIndex(res, x, y))] == FaceVertex(Directions[f], res, planet.size, ops, x, y) &&
              mesh.uvs[Slot(6, res * res, f, VertexIndex(res, x, y))] == FaceUv(Directions[f], res, planet.size, ops, x, y)
    ensures |mesh.indices| == 6 * FaceIndexCount(planet.resolution)
    ensures var res := planet.resolution;
            forall f, cx, cy, k :: 0 <= f < 6 && 0 <= cx < res - 1 && 0 <= cy < res - 1 && 0 <= k < 6 ==>
              mesh.indices[Slot(6, FaceIndexCount(res), f, Entry(res, cx, cy, k))] ==
                QuadIndices(res, VertexIndex(res, cx, cy))[k] + f * (res * res)
  {
    var res := planet.resolution;
    var vertLists: seq<seq<Vec3>> := [];
    var triangleLists: seq<seq<nat>> := [];
    var uvLists: seq<seq<Vec2>> := [];
    for f := 0 to |Directions|
      invariant |vertLists| == f && |triangleLists| == f && |uvLists| == f
      invariant forall g :: 0 <= g < f ==> IsFace(res, Directions[g], planet.size, ops, vertLists[g], triangleLists[g], uvLists[g])
    {
      var vertices, triangles, uvs := Face(res, Directions[f], planet.size, ops);
      vertLists := vertLists + [vertices];
      triangleLists := triangleLists + [triangles];
      uvLists := uvLists + [uvs];
    }
    mesh := Assemble(res, vertLists, triangleLists, uvLists);
    FlattenUniform(vertLists, res * res);
    FlattenUniform(uvLists, res * res);
    FlattenUniform(ShiftFaces(triangleLists, res * res), FaceIndexCount(res));
  }

  /** The shift loses nothing: a shifted index names its face and, within it, the local index. */
  lemma ShiftRecoversFace(lists: seq<seq<nat>>, numIndices: nat, f: nat, k: nat)
    requires f < |lists| && k < |lists[f]| && lists[f][k] < numIndices
    ensures var r := ShiftFaces(lists, numIndices);
            r[f][k] / numIndices == f && r[f][k] % numIndices == lists[f][k]
  {
    DivMod(f, numIndices, lists[f][k]);
    assert ShiftFaces(lists, numIndices)[f][k] == f * numIndices + lists[f][k];
  }

  /** Face `f`'s indices lie in `[f * res^2, (f + 1) * res^2)`: each face only names its own vertices. */
  lemma MeshIndicesStayInFace(resolution: nat, f: nat, cx: nat, cy: nat, k: nat)
    requires resolution >= 2 && f < 6 && cx < resolution - 1 && cy < resolution - 1 && k < 6
    ensures var n := resolution * resolution;
            var index := QuadIndices(resolution, VertexIndex(resolution, cx, cy))[k] + f * n;
            f * n <= index < (f + 1) * n && index < 6 * n
  {
    CellIndicesInRange(resolution, cx, cy, k);
    MulLe(f + 1, 6, resolution * resolution);
  }
}
