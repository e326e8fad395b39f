/**
 * SurfaceGenerator: samples a surface over a U x V grid, splits every quad
 * into two triangles and pushes their positions, UVs and normals into three
 * parallel vectors. The vectors are the object's fields and each pass
 * updates them in place, as the member functions of the class do.
 */
module Generator {
  import opened Geometry
  import opened Grid
  import opened Tessellation
  import opened Accumulators

  /** `std::vector::resize(n, d)`: keeps the first n entries and pads with d. */
  function Resize<T>(s: seq<T>, n: nat, d: T): (r: seq<T>)
    ensures |r| == n
    ensures forall k :: 0 <= k < n ==> r[k] == if k < |s| then s[k] else d
  {
    if n <= |s| then s[..n] else s + seq(n - |s|, _ => d)
  }

  /** `getTriangleCount`: the vertex count divided by 3 as C++ divides an `int`. */
  function TriangleCount(vertexCount: int): (r: int)
    ensures 0 <= vertexCount ==> 0 <= 3 * r <= vertexCount < 3 * r + 3
    ensures vertexCount < 0 ==> 3 * r - 3 < vertexCount <= 3 * r <= 0
    ensures vertexCount % 3 == 0 ==> 3 * r == vertexCount
  {
    CDiv(vertexCount, 3)
  }

  /**
   * `assign(n, vec, it)`: copies components 0 .. n - 1 of vec to the buffer
   * slots from `it` on and leaves `it` just past the last slot written; the
   * other slots keep their values.
   */
  method Assign(n: int, vec: seq<real>, buf: array<real>, it: int) returns (next: int)
    requires 0 <= it <= buf.Length
    requires n <= 0 || (n <= |vec| && it + n <= buf.Length)
    modifies buf
    ensures next == it + (if n > 0 then n else 0) && next <= buf.Length
    ensures buf[..it] == old(buf[..it])
    ensures buf[it..next] == vec[..next - it]
    ensures buf[next..] == old(buf[next..])
  {
    next := it;
    var i := 0;
    while i < n
      invariant 0 <= i <= (if n > 0 then n else 0) && next == it + i
      invariant buf[..it] == old(buf[..it])
      invariant buf[it..next] == vec[..i]
      invariant buf[next..] == old(buf[next..])
    {
      buf[next] := vec[i];
      next := next + 1;
      i := i + 1;
    }
  }

  /** Appending whole triangles to a stream of whole triangles keeps it whole. */
  lemma AddTriangles(before: int, tris: int)
    requires before % 3 == 0
    ensures (before + 3 * tris) % 3 == 0
  {
  }

  lemma GeneratedStreams(s: Surface, ts: seq<Vec3>, ws: seq<Vec2>, ns: seq<Vec3>, tris: seq<Triangle>)
    requires |ts| == |ws| == |ns| && |ts| % 3 == 0
    ensures |ts + Positions(s, tris)| == |ws + UVs(s, tris)| == |ns + FlatNormals(s, tris)|
    ensures |ts + Positions(s, tris)| % 3 == 0
  {
    AddTriangles(|ts|, |tris|);
  }

  class SurfaceGenerator {
    /** The concrete surface's `UV` and `F`. */
    const surface: Surface

    var uSegments: int
    var vSegments: int
    var closeU: bool
    var closeV: bool

    // Temporary data, one entry per grid cell.
    var uvVertex: seq<Vec3>
    var uvNormal: seq<Vec3>
    var divideCount: seq<int>

    // Three entries per triangle.
    var triangles: seq<Vec3>
    var normals: seq<Vec3>
    var uvs: seq<Vec2>

    // Outputs; no member shown writes them.
    var buffer: seq<real>
    var vertexCount: int

    /** What the asserts at the end of `generate` check: three parallel streams of whole triangles. */
    ghost predicate Valid()
      reads this`triangles, this`normals, this`uvs
    {
      |triangles| == |normals| == |uvs| && |triangles| % 3 == 0
    }

    /** The per-cell vectors have one entry per cell, as `generate` resizes them. */
    ghost predicate Sized()
      reads this`uSegments, this`vSegments, this`uvVertex, this`uvNormal, this`divideCount
    {
      PerCell(uSegments, vSegments, |uvVertex|, |uvNormal|, |divideCount|)
    }

    /** `_uvVertex` starts with the positions of rows 0 .. u - 1 and of cells (u, 0) .. (u, v - 1). */
    ghost predicate SampledUpTo(u: int, v: int)
      reads this`vSegments, this`uvVertex
    {
      && 0 <= u && 0 <= v <= vSegments
      && 0 <= VI(vSegments, u, v) <= |uvVertex|
      && uvVertex[..VI(vSegments, u, v)] == SampleRows(surface, vSegments, u) + SampleRow(surface, u, v)
    }

    /** Every cell of the grid holds its own position, row after row, as `generateUVVertex` leaves it. */
    ghost predicate Sampled()
      reads this`uSegments, this`vSegments, this`uvVertex
    {
      SampledGrid(surface, uSegments, vSegments, uvVertex)
    }

    /** The four vectors `halfQuadVertex` updates, as one value. */
    ghost function Vertices(): VertexStreams
      reads this`triangles, this`uvs, this`uvNormal, this`divideCount
    {
      VertexStreams(triangles, uvs, uvNormal, divideCount)
    }

    /** `_normals` holds the face normals of tris after the given starting contents. */
    ghost predicate FlatEmitted(tris: seq<Triangle>, start: seq<Vec3>)
      reads this`normals
    {
      normals == start + FlatNormals(surface, tris)
    }

    /** `_normals` holds the stored cell normals of the corners of tris after the given starting contents. */
    ghost predicate SmoothEmitted(tris: seq<Triangle>, start: seq<Vec3>)
      reads this`vSegments, this`uvNormal, this`normals
    {
      normals == start + CellNormals(uvNormal, vSegments, tris)
    }

    /**
     * The constructor whose body is not shown: it keeps the surface, the
     * counts and the flags and starts with empty vectors.
     */
    constructor (surface: Surface, uSegments: int, vSegments: int, closeU: bool, closeV: bool)
      ensures this.surface == surface
      ensures this.uSegments == uSegments && this.vSegments == vSegments
      ensures this.closeU == closeU && this.closeV == closeV
      ensures uvVertex == [] && uvNormal == [] && divideCount == []
      ensures triangles == [] && normals == [] && uvs == []
      ensures buffer == [] && vertexCount == 0
      ensures Valid()
    {
      this.surface := surface;
      this.uSegments, this.vSegments := uSegments, vSegments;
      this.closeU, this.closeV := closeU, closeV;
      uvVertex, uvNormal, divideCount := [], [], [];
      triangles, normals, uvs := [], [], [];
      buffer, vertexCount := [], 0;
    }

    function GetUSegmentCount(): (r: int)
      reads this`uSegments
      ensures r == uSegments
    {
      uSegments
    }

    function GetVSegmentCount(): (r: int)
      reads this`vSegments
      ensures r == vSegments
    {
      vSegments
    }

    function GetVertexCount(): (r: int)
      reads this`vertexCount
      ensures r == vertexCount
    {
      vertexCount
    }

    /** `getTriangleCount`: one triangle per three vertices, since no vertex is shared. */
    function GetTriangleCount(): (r: int)
      reads this`vertexCount
      ensures r == TriangleCount(vertexCount)
    {
      TriangleCount(vertexCount)
    }

    /**
     * `generate(uSegments, vSegments, closeU, closeV)`: stores the counts and
     * flags, sizes the per-cell vectors, runs the three passes with flat
     * normals and releases the per-cell vectors again. The streams are not
     * cleared first, so each call appends its triangles to those of earlier
     * calls.
     */
    method Generate(uSegments: int, vSegments: int, closeU: bool, closeV: bool)
      requires Valid() && Dimensions(uSegments, vSegments)
      modifies this`uSegments, this`vSegments, this`closeU, this`closeV
      modifies this`uvVertex, this`uvNormal, this`divideCount, this`triangles, this`uvs, this`normals
      ensures Valid()
      ensures this.uSegments == uSegments && this.vSegments == vSegments
      ensures this.closeU == closeU && this.closeV == closeV
      ensures var T := Triangulation(uSegments, vSegments, closeU, closeV);
        && triangles == old(triangles) + Positions(surface, T)
        && uvs == old(uvs) + UVs(surface, T)
        && normals == old(normals) + FlatNormals(surface, T)
      ensures uvVertex == [] && uvNormal == [] && divideCount == []
    {
      this.uSegments, this.vSegments := uSegments, vSegments;
      this.closeU, this.closeV := closeU, closeV;

      uvVertex := Resize(uvVertex, uSegments * vSegments, Zero);
      uvNormal := Resize(uvNormal, uSegments * vSegments, Zero);
      divideCount := Resize(divideCount, uSegments * vSegments, 0);

      FlatShadedPasses();
      uvVertex, uvNormal, divideCount := [], [], [];
    }

    /** The three passes `generate` runs on the sized per-cell vectors: positions, triangles and UVs, flat normals. */
    method FlatShadedPasses()
      requires Sized() && Valid()
      modifies this`uvVertex, this`uvNormal, this`divideCount, this`triangles, this`uvs, this`normals
      ensures Valid()
      ensures var T := Triangulation(uSegments, vSegments, closeU, closeV);
        && triangles == old(triangles) + Positions(surface, T)
        && uvs == old(uvs) + UVs(surface, T)
        && normals == old(normals) + FlatNormals(surface, T)
    {
      GenerateUVVertex();
      ghost var before := Vertices();
      GenerateTrianglesAndUVs();
      StreamedIs(surface, vSegments, before, Triangulation(uSegments, vSegments, closeU, closeV), Vertices());
      EmitTrianglesStreams(surface, vSegments, before, Triangulation(uSegments, vSegments, closeU, closeV));
      GenerateFlatNormals();
      GeneratedStreams(surface, old(triangles), old(uvs), old(normals), Triangulation(uSegments, vSegments, closeU, closeV));
    }

    /**
     * `generateUVVertex`: stores `F(UV(u, v))` at index VI(u, v) of every
     * cell, row by row; with no cell to visit the vector keeps what
     * `resize` left.
     */
    method GenerateUVVertex()
      requires Sized()
      modifies this`uvVertex
      ensures Sized() && Sampled()
      ensures uSegments <= 0 || vSegments <= 0 ==> uvVertex == old(uvVertex)
    {
      var U, V := uSegments, vSegments;
      if U > 0 && V > 0 {
        var u := 0;
        assert uvVertex[..0] == [] + [];
        while u < U
          invariant 0 <= u <= U && Sized() && SampledUpTo(u, 0)
        {
          UVVertexRow(u);
          u := u + 1;
        }
        assert uvVertex[..U * V] == uvVertex;
        assert SampleRows(surface, V, U) + [] == SampleRows(surface, V, U);
        SampleRowsGrid(surface, U, V);
      }
    }

    /** The inner loop of `generateUVVertex`: row u of the grid, cell by cell. */
    method UVVertexRow(u: int)
      requires Sized() && 0 <= u < uSegments && SampledUpTo(u, 0)
      modifies this`uvVertex
      ensures Sized() && SampledUpTo(u + 1, 0)
    {
      var U, V := uSegments, vSegments;
      var v := 0;
      while v < V
        invariant 0 <= v <= V && Sized() && SampledUpTo(u, v)
      {
        VIRange(U, V, u, v);
        var uv := surface.UV(u, v);
        SampleStep(surface, V, uvVertex, u, v);
        uvVertex := uvVertex[VI(V, u, v) := surface.F(uv)];
        v := v + 1;
      }
      MulSucc(u, V);
      MulMonotone(u + 1, U, V);
      assert SampleRows(surface, V, u + 1) + [] == SampleRows(surface, V, u) + SampleRow(surface, u, V);
    }

    /**
     * `generateTrianglesAndUVs`: walks the quads row by row and emits both
     * halves of each, in the order of the triangulation; the accumulators
     * gain each triangle's corner counts and face normals.
     */
    method GenerateTrianglesAndUVs()
      requires Sized() && Sampled()
      modifies this`triangles, this`uvs, this`uvNormal, this`divideCount
      ensures Sized()
      ensures Streamed(surface, vSegments, old(Vertices()), Triangulation(uSegments, vSegments, closeU, closeV), Vertices())
    {
      var U, V := uSegments, vSegments;
      var m, n := Sweep(U, closeU), Sweep(V, closeV);
      SweepRange(U, closeU);
      SweepRange(V, closeV);
      StreamedNothing(surface, V, Vertices());
      var u := 0;
      while u < m
        invariant 0 <= u <= m && Sized()
        invariant Streamed(surface, vSegments, old(Vertices()), GridTriangles(uSegments, vSegments, u, n), Vertices())
      {
        TrianglesAndUVsRow(u, n, old(Vertices()));
        u := u + 1;
      }
      assert u == Sweep(uSegments, closeU);
      assert GridTriangles(uSegments, vSegments, u, n) == Triangulation(uSegments, vSegments, closeU, closeV);
    }

    /** The inner loop of `generateTrianglesAndUVs`: the first n quads of row u. */
    method TrianglesAndUVsRow(u: int, n: int, ghost start: VertexStreams)
      requires Sized() && Sampled()
      requires 0 <= u < uSegments && 0 <= n && (n > 0 ==> n <= vSegments)
      requires Streamed(surface, vSegments, start, GridTriangles(uSegments, vSegments, u, n), Vertices())
      modifies this`triangles, this`uvs, this`uvNormal, this`divideCount
      ensures Sized()
      ensures Streamed(surface, vSegments, start, GridTriangles(uSegments, vSegments, u + 1, n), Vertices())
    {
      var U, V := uSegments, vSegments;
      ghost var mid := Vertices();
      StreamedNothing(surface, V, mid);
      var v := 0;
      while v < n
        invariant 0 <= v <= n && Sized()
        invariant Streamed(surface, V, mid, RowTriangles(U, V, u, v), Vertices())
      {
        StreamedQuad(surface, U, V, mid, u, v + 1, Vertices());
        QuadVertices(u, v);
        v := v + 1;
      }
      StreamedRow(surface, U, V, start, u, n, mid, Vertices());
    }

    /** One step of that loop: both halves of the quad at (u, v), half 0 first. */
    method QuadVertices(u: int, v: int)
      requires Sized() && Sampled()
      requires 0 <= u < uSegments && 0 <= v < vSegments
      modifies this`triangles, this`uvs, this`uvNormal, this`divideCount
      ensures Sized()
      ensures Vertices() == EmitQuad(surface, uSegments, vSegments, old(Vertices()), u, v)
    {
      HalfQuadVertex(u, v, 0);
      HalfQuadVertex(u, v, 1);
    }

    /**
     * `halfQuadVertex(u, v, h)`: pushes the positions and UVs of half h of the
     * quad at (u, v), and adds its face normal and one count to the
     * accumulators of each of its corners, in corner order. Every index it
     * uses is an index of the per-cell vectors.
     */
    method HalfQuadVertex(u: int, v: int, h: int)
      requires Sized() && Sampled()
      requires 0 <= u < uSegments && 0 <= v < vSegments && (h == 0 || h == 1)
      modifies this`triangles, this`uvs, this`uvNormal, this`divideCount
      ensures Sized()
      ensures Vertices() == EmitTriangle(surface, vSegments, old(Vertices()), HalfQuad(uSegments, vSegments, u, v, h))
    {
      var U, V := uSegments, vSegments;
      var u1, v1 := CRem(u + 1, U), CRem(v + 1, V);
      NextIsRemainder(U, u);
      NextIsRemainder(V, v);
      var idx := [VI(V, u, v), VI(V, u1, v), VI(V, u1, v1), VI(V, u, v1)];
      SampledGridAt(surface, U, V, uvVertex, u, v);
      SampledGridAt(surface, U, V, uvVertex, u1, v);
      SampledGridAt(surface, U, V, uvVertex, u1, v1);
      SampledGridAt(surface, U, V, uvVertex, u, v1);
      var c := [uvVertex[idx[0]], uvVertex[idx[1 + h]], uvVertex[idx[2 + h]]];
      var n := Normal(c[0], c[1], c[2]);

      triangles := triangles + [c[0], c[1], c[2]];

      if h == 0 {
        uvs := uvs + [surface.UV(u, v), surface.UV(u1, v), surface.UV(u1, v1)];
      } else {
        uvs := uvs + [surface.UV(u, v), surface.UV(u1, v1), surface.UV(u, v1)];
      }

      uvNormal := AddAt(uvNormal, idx[0], n);
      divideCount := IncAt(divideCount, idx[0]);
      uvNormal := AddAt(uvNormal, idx[1 + h], n);
      divideCount := IncAt(divideCount, idx[1 + h]);
      uvNormal := AddAt(uvNormal, idx[2 + h], n);
      divideCount := IncAt(divideCount, idx[2 + h]);
    }

    /** `generateFlatNormals`: the face normal of every emitted triangle, three times, in emission order. */
    method GenerateFlatNormals()
      requires Sized() && Sampled()
      modifies this`normals
      ensures normals == old(normals) + FlatNormals(surface, Triangulation(uSegments, vSegments, closeU, closeV))
    {
      assert |uvNormal| == |divideCount|;
      var U, V := uSegments, vSegments;
      var m, n := Sweep(U, closeU), Sweep(V, closeV);
      SweepRange(U, closeU);
      SweepRange(V, closeV);
      var u := 0;
      while u < m
        invariant 0 <= u <= m
        invariant FlatEmitted(GridTriangles(U, V, u, n), old(normals))
      {
        FlatNormalsRow(u, n, old(normals));
        u := u + 1;
      }
    }

    /** The inner loop of `generateFlatNormals`: the first n quads of row u. */
    method FlatNormalsRow(u: int, n: int, ghost start: seq<Vec3>)
      requires Sized() && Sampled()
      requires 0 <= u < uSegments && 0 <= n && (n > 0 ==> n <= vSegments)
      requires FlatEmitted(GridTriangles(uSegments, vSegments, u, n), start)
      modifies this`normals
      ensures FlatEmitted(GridTriangles(uSegments, vSegments, u + 1, n), start)
    {
      ghost var mid := normals;
      var v := 0;
      while v < n
        invariant 0 <= v <= n
        invariant FlatEmitted(RowTriangles(uSegments, vSegments, u, v), mid)
      {
        ghost var cur := normals;
        HalfQuadFlatNormal(u, v, 0);
        HalfQuadFlatNormal(u, v, 1);
        FlatNormalsRowStep(surface, mid, cur, normals, uSegments, vSegments, u, v);
        v := v + 1;
      }
      FlatNormalsGridStep(surface, start, mid, normals, uSegments, vSegments, u, n);
    }

    /** `halfQuadFlatNormal(u, v, h)`: pushes the face normal of half h of the quad at (u, v) once per corner. */
    method HalfQuadFlatNormal(u: int, v: int, h: int)
      requires Sized() && Sampled()
      requires 0 <= u < uSegments && 0 <= v < vSegments && (h == 0 || h == 1)
      modifies this`normals
      ensures var n := FaceNormal(surface, HalfQuad(uSegments, vSegments, u, v, h));
        normals == old(normals) + [n, n, n]
    {
      var U, V := uSegments, vSegments;
      var u1, v1 := CRem(u + 1, U), CRem(v + 1, V);
      NextIsRemainder(U, u);
      NextIsRemainder(V, v);
      var idx := [VI(V, u, v), VI(V, u1, v), VI(V, u1, v1), VI(V, u, v1)];
      SampledGridAt(surface, U, V, uvVertex, u, v);
      SampledGridAt(surface, U, V, uvVertex, u1, v);
      SampledGridAt(surface, U, V, uvVertex, u1, v1);
      SampledGridAt(surface, U, V, uvVertex, u, v1);
      var c := [uvVertex[idx[0]], uvVertex[idx[1 + h]], uvVertex[idx[2 + h]]];
      var n := Normal(c[0], c[1], c[2]);

      normals := normals + [n, n, n];
    }

    /**
     * `generateSmoothNormals`: divides every accumulated normal by its count,
     * then pushes, for every corner of every emitted triangle, the averaged
     * normal of the corner's cell. Every count must be nonzero.
     */
    method GenerateSmoothNormals()
      requires Sized()
      requires forall i :: 0 <= i < |divideCount| ==> divideCount[i] != 0
      modifies this`uvNormal, this`normals
      ensures Sized()
      ensures uvNormal == Averages(old(uvNormal), divideCount)
      ensures normals == old(normals) + CellNormals(uvNormal, vSegments, Triangulation(uSegments, vSegments, closeU, closeV))
    {
      assert |uvNormal| == |divideCount|;
      var i := 0;
      while i < |uvNormal|
        modifies this`uvNormal
        invariant 0 <= i <= |uvNormal| && Sized()
        invariant forall k :: 0 <= k < i ==> uvNormal[k] == Div(old(uvNormal)[k], divideCount[k] as real)
        invariant forall k :: i <= k < |uvNormal| ==> uvNormal[k] == old(uvNormal)[k]
      {
        uvNormal := uvNormal[i := Div(uvNormal[i], divideCount[i] as real)];
        i := i + 1;
      }
      assert uvNormal == Averages(old(uvNormal), divideCount);

      var U, V := uSegments, vSegments;
      var m, n := Sweep(U, closeU), Sweep(V, closeV);
      SweepRange(U, closeU);
      SweepRange(V, closeV);
      var u := 0;
      while u < m
        modifies this`normals
        invariant 0 <= u <= m
        invariant SmoothEmitted(GridTriangles(U, V, u, n), old(normals))
      {
        SmoothNormalsRow(u, n, old(normals));
        u := u + 1;
      }
    }

    /** The inner loop of the second pass of `generateSmoothNormals`: the first n quads of row u. */
    method SmoothNormalsRow(u: int, n: int, ghost start: seq<Vec3>)
      requires Sized()
      requires 0 <= u < uSegments && 0 <= n && (n > 0 ==> n <= vSegments)
      requires SmoothEmitted(GridTriangles(uSegments, vSegments, u, n), start)
      modifies this`normals
      ensures SmoothEmitted(GridTriangles(uSegments, vSegments, u + 1, n), start)
    {
      ghost var mid := normals;
      var v := 0;
      while v < n
        invariant 0 <= v <= n
        invariant SmoothEmitted(RowTriangles(uSegments, vSegments, u, v), mid)
      {
        ghost var cur := normals;
        HalfQuadSmoothNormal(u, v, 0);
        HalfQuadSmoothNormal(u, v, 1);
        CellNormalsRowStep(uvNormal, mid, cur, normals, uSegments, vSegments, u, v);
        v := v + 1;
      }
      CellNormalsGridStep(uvNormal, start, mid, normals, uSegments, vSegments, u, n);
    }

    /**
     * `halfQuadSmoothNormal(u, v, h)`: pushes the stored normals of the three
     * cells of half h of the quad at (u, v); each index is an index of
     * `_uvNormal`.
     */
    method HalfQuadSmoothNormal(u: int, v: int, h: int)
      requires Sized()
      requires 0 <= u < uSegments && 0 <= v < vSegments && (h == 0 || h == 1)
      modifies this`normals
      ensures var t, V := HalfQuad(uSegments, vSegments, u, v, h), vSegments;
        && 0 <= Index(V, t.a) < |uvNormal| && 0 <= Index(V, t.b) < |uvNormal| && 0 <= Index(V, t.c) < |uvNormal|
        && normals == old(normals) + [Lookup(uvNormal, Index(V, t.a)), Lookup(uvNormal, Index(V, t.b)), Lookup(uvNormal, Index(V, t.c))]
    {
      var U, V := uSegments, vSegments;
      var u1, v1 := CRem(u + 1, U), CRem(v + 1, V);
      NextIsRemainder(U, u);
      NextIsRemainder(V, v);
      var idx := [VI(V, u, v), VI(V, u1, v), VI(V, u1, v1), VI(V, u, v1)];
      VIRange(U, V, u, v);
      VIRange(U, V, u1, v);
      VIRange(U, V, u1, v1);
      VIRange(U, V, u, v1);

      normals := normals + [uvNormal[idx[0]], uvNormal[idx[1 + h]], uvNormal[idx[2 + h]]];
    }
  }
}
