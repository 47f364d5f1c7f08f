/**
  Conversion of an FBX mesh into a renderer triangle mesh (`createMesh`).

  The FBX mesh keeps fewer control points than polygon vertices, and its
  normals and UVs are stored per polygon vertex, so the conversion expands the
  polygon-vertex index array: one output vertex per index entry, one triangle
  per step of three entries, then the per-polygon-vertex normals and the UVs
  of the first UV set. Positions, normals and UVs are kept abstract (the type
  parameters P, N and U), so the model involves no floating point.
 */
module Mesh {

  /** One triangle of a TriMesh: three indices into its vertex list. */
  datatype Triangle = Triangle(a: nat, b: nat, c: nat)

  /** A named UV set of an FBX mesh, one UV per polygon vertex. */
  datatype UVSet<U> = UVSet(name: string, coords: seq<U>)

  /** What the conversion reads from an SDK mesh. `polygonSizes` holds the
      vertex count of each polygon; `polygonVertices` lists, polygon after
      polygon, the control point of each polygon vertex. */
  datatype FbxMesh<P, N, U> = FbxMesh(
    name: string,
    controlPoints: seq<P>,
    polygonSizes: seq<nat>,
    polygonVertices: seq<int>,
    polygonVertexNormals: seq<N>,
    uvSets: seq<UVSet<U>>)

  /** The renderer's mesh: vertex positions, triangle list, normals and texture coordinates. */
  datatype TriMesh<P, N, U> = TriMesh(vertices: seq<P>, triangles: seq<Triangle>, normals: seq<N>, texCoords: seq<U>)
  {
    function AppendVertex(p: P): TriMesh<P, N, U> { this.(vertices := vertices + [p]) }
    function AppendTriangle(a: nat, b: nat, c: nat): TriMesh<P, N, U> { this.(triangles := triangles + [Triangle(a, b, c)]) }
    function AppendNormal(n: N): TriMesh<P, N, U> { this.(normals := normals + [n]) }
    function AppendTexCoord(uv: U): TriMesh<P, N, U> { this.(texCoords := texCoords + [uv]) }
  }

  /** Every index of `idx` selects one of the control points `cp`. */
  predicate IndicesIn<P>(cp: seq<P>, idx: seq<int>)
  {
    forall i :: 0 <= i < |idx| ==> 0 <= idx[i] < |cp|
  }

  /** The SDK's guarantee that every polygon vertex names an existing control point. */
  predicate IndicesValid<P, N, U>(m: FbxMesh<P, N, U>)
  {
    IndicesIn(m.controlPoints, m.polygonVertices)
  }

  function Sum(s: seq<nat>): nat
  {
    if s == [] then 0 else Sum(s[..|s| - 1]) + s[|s| - 1]
  }

  /** The mesh as left by the SDK's triangulation: the polygon sizes account for
      every polygon vertex and every polygon is a triangle. */
  predicate Triangulated<P, N, U>(m: FbxMesh<P, N, U>)
  {
    Sum(m.polygonSizes) == |m.polygonVertices|
    && forall i :: 0 <= i < |m.polygonSizes| ==> m.polygonSizes[i] == 3
  }

  /** The control points selected by `idx`, appended in index order. */
  function Gather<P>(cp: seq<P>, idx: seq<int>): seq<P>
    requires IndicesIn(cp, idx)
  {
    if idx == [] then [] else Gather(cp, idx[..|idx| - 1]) + [cp[idx[|idx| - 1]]]
  }

  /** The first `k` triangles of the list, appended in order, the j-th starting at entry 3j. */
  function TriangleList(k: nat): seq<Triangle>
  {
    if k == 0 then [] else TriangleList(k - 1) + [Triangle(3 * (k - 1), 3 * (k - 1) + 1, 3 * (k - 1) + 2)]
  }

  /** The number of steps of three that start below `n`. */
  function TriangleCount(n: nat): (k: nat)
    ensures n <= 3 * k
    ensures k > 0 ==> 3 * (k - 1) < n
  {
    (n + 2) / 3
  }

  /** The texture coordinates of the first UV set, or none if the mesh has no UV set. */
  function FirstUVs<P, N, U>(m: FbxMesh<P, N, U>): seq<U>
  {
    if |m.uvSets| > 0 then m.uvSets[0].coords else []
  }

  /** The mesh `createMesh` builds from `m`. */
  function Flatten<P, N, U>(m: FbxMesh<P, N, U>): TriMesh<P, N, U>
    requires IndicesValid(m)
  {
    TriMesh(
      Gather(m.controlPoints, m.polygonVertices),
      TriangleList(TriangleCount(|m.polygonVertices|)),
      m.polygonVertexNormals,
      FirstUVs(m))
  }

  /** Every triangle corner names an existing vertex. */
  predicate InBounds<P, N, U>(t: TriMesh<P, N, U>)
  {
    forall k :: 0 <= k < |t.triangles| ==>
      t.triangles[k].a < |t.vertices| && t.triangles[k].b < |t.vertices| && t.triangles[k].c < |t.vertices|
  }

  /** Builds the renderer mesh from an SDK mesh by the four loops of `createMesh`. */
  method CreateMesh<P, N, U>(mesh: FbxMesh<P, N, U>) returns (triMesh: TriMesh<P, N, U>)
    requires IndicesValid(mesh)
    ensures triMesh == Flatten(mesh)
  {
    triMesh := TriMesh([], [], [], []);

    // vertices: one per polygon-vertex index entry
    var indexCount := |mesh.polygonVertices|;
    var index := mesh.polygonVertices;
    for i := 0 to indexCount
      invariant triMesh == TriMesh(Gather(mesh.controlPoints, index[..i]), [], [], [])
    {
      assert index[..i + 1][..i] == index[..i];
      triMesh := triMesh.AppendVertex(mesh.controlPoints[index[i]]);
    }
    assert index[..indexCount] == index;

    // triangles: (i, i + 1, i + 2) for i = 0, 3, 6, ... below indexCount
    var i := 0;
    while i < indexCount
      invariant i % 3 == 0 && i <= indexCount + 2
      invariant triMesh == TriMesh(Gather(mesh.controlPoints, index), TriangleList(i / 3), [], [])
    {
      triMesh := triMesh.AppendTriangle(i, i + 1, i + 2);
      i := i + 3;
    }
    assert i / 3 == TriangleCount(indexCount);

    // normals, in SDK order
    var normals := mesh.polygonVertexNormals;
    for j := 0 to |normals|
      invariant triMesh == TriMesh(Gather(mesh.controlPoints, index), TriangleList(TriangleCount(indexCount)), normals[..j], [])
    {
      assert normals[..j + 1] == normals[..j] + [normals[j]];
      triMesh := triMesh.AppendNormal(normals[j]);
    }
    assert normals[..|normals|] == normals;

    // UVs, from the first UV set only
    if |mesh.uvSets| > 0 {
      var uvs := mesh.uvSets[0].coords;
      for j := 0 to |uvs|
        invariant triMesh == TriMesh(Gather(mesh.controlPoints, index), TriangleList(TriangleCount(indexCount)), normals, uvs[..j])
      {
        assert uvs[..j + 1] == uvs[..j] + [uvs[j]];
        triMesh := triMesh.AppendTexCoord(uvs[j]);
      }
      assert uvs[..|uvs|] == uvs;
    }
  }

  /** Vertex `i` of the gather is the control point at `idx[i]`, and there is one per index. */
  lemma {:induction false} GatherAt<P>(cp: seq<P>, idx: seq<int>)
    requires IndicesIn(cp, idx)
    ensures |Gather(cp, idx)| == |idx|
    ensures forall i :: 0 <= i < |idx| ==> Gather(cp, idx)[i] == cp[idx[i]]
  {
    if idx != [] {
      var prefix := idx[..|idx| - 1];
      GatherAt(cp, prefix);
      forall i | 0 <= i < |idx| ensures Gather(cp, idx)[i] == cp[idx[i]] {
        if i < |prefix| {
          assert prefix[i] == idx[i];
        }
      }
    }
  }

  /** The list holds `k` triangles and triangle `j` is (3j, 3j + 1, 3j + 2). */
  lemma {:induction false} TriangleListAt(k: nat)
    ensures |TriangleList(k)| == k
    ensures forall j :: 0 <= j < k ==> TriangleList(k)[j] == Triangle(3 * j, 3 * j + 1, 3 * j + 2)
  {
    if k > 0 {
      TriangleListAt(k - 1);
    }
  }

  /** The flattened mesh has one vertex per polygon-vertex index, vertex `i` being
      the control point at index `i`; one triangle per step of three, triangle `k`
      being (3k, 3k + 1, 3k + 2); the normals in SDK order; and the UVs of the
      first UV set, or none when the mesh has no UV set. */
  lemma FlattenContents<P, N, U>(m: FbxMesh<P, N, U>)
    requires IndicesValid(m)
    ensures |Flatten(m).vertices| == |m.polygonVertices|
    ensures forall i :: 0 <= i < |m.polygonVertices| ==> Flatten(m).vertices[i] == m.controlPoints[m.polygonVertices[i]]
    ensures |Flatten(m).triangles| == TriangleCount(|m.polygonVertices|)
    ensures forall k :: 0 <= k < |Flatten(m).triangles| ==> Flatten(m).triangles[k] == Triangle(3 * k, 3 * k + 1, 3 * k + 2)
    ensures Flatten(m).normals == m.polygonVertexNormals
    ensures |m.uvSets| > 0 ==> Flatten(m).texCoords == m.uvSets[0].coords
    ensures |m.uvSets| == 0 ==> Flatten(m).texCoords == []
  {
    GatherAt(m.controlPoints, m.polygonVertices);
    TriangleListAt(TriangleCount(|m.polygonVertices|));
  }

  /** Every triangle index is below the vertex count exactly when the index count
      is a multiple of three; otherwise the last triangle reaches past the end. */
  lemma FlattenInBounds<P, N, U>(m: FbxMesh<P, N, U>)
    requires IndicesValid(m)
    ensures InBounds(Flatten(m)) <==> |m.polygonVertices| % 3 == 0
  {
    FlattenContents(m);
    var n := |m.polygonVertices|;
    var k := TriangleCount(n);
    if n % 3 != 0 {
      assert Flatten(m).triangles[k - 1].c == 3 * (k - 1) + 2;
    }
  }

  /** A sequence of threes sums to three times its length. */
  lemma {:induction false} SumOfThrees(s: seq<nat>)
    requires forall i :: 0 <= i < |s| ==> s[i] == 3
    ensures Sum(s) == 3 * |s|
  {
    if s != [] {
      SumOfThrees(s[..|s| - 1]);
    }
  }

  /** After triangulation the index count is a multiple of three, so every
      triangle of the flattened mesh stays within its vertices. */
  lemma TriangulatedInBounds<P, N, U>(m: FbxMesh<P, N, U>)
    requires IndicesValid(m) && Triangulated(m)
    ensures |m.polygonVertices| % 3 == 0
    ensures InBounds(Flatten(m))
  {
    SumOfThrees(m.polygonSizes);
    FlattenInBounds(m);
  }
}
