/**
 * What the triangulation passes of SurfaceGenerator emit, as functions of the
 * segment counts and the close flags: the quads they walk, the two triangles
 * each quad is split into, and the per-vertex streams pushed into
 * `_triangles`, `_uvs` and `_normals`.
 */
module Tessellation {
  import opened Geometry
  import opened Grid

  /**
   * The two pure virtual hooks of a concrete surface: `UV(u, v)` maps a grid
   * cell to the surface's parameter domain and `F(uv)` maps that to a point.
   * Arrow types are total and read no state, so both are deterministic.
   */
  datatype Surface = Surface(UV: (int, int) -> Vec2, F: Vec2 -> Vec3) {
    /** The position `generateUVVertex` stores for cell c. */
    function Position(c: Cell): Vec3 {
      F(UV(c.u, c.v))
    }

    function UVAt(c: Cell): Vec2 {
      UV(c.u, c.v)
    }
  }

  /** The three cells `i[0]`, `i[1 + h]`, `i[2 + h]` whose data a triangle is made of. */
  datatype Triangle = Triangle(a: Cell, b: Cell, c: Cell) {
    function Corner(j: int): Cell
      requires 0 <= j < 3
    {
      if j == 0 then a else if j == 1 then b else c
    }
  }

  ghost predicate WithinGrid(U: int, V: int, tris: seq<Triangle>) {
    forall k :: 0 <= k < |tris| ==>
      InGrid(U, V, tris[k].a) && InGrid(U, V, tris[k].b) && InGrid(U, V, tris[k].c)
  }

  /**
   * The corners `i[4]` of the quad whose lower-left cell is (u, v):
   * (u, v), (u1, v), (u1, v1), (u, v1) with u1 and v1 the wrapped neighbours.
   * Row U - 1 wraps to row 0 and column V - 1 to column 0, so every corner is
   * a cell of the grid.
   */
  function QuadCorners(U: int, V: int, u: int, v: int): (q: seq<Cell>)
    requires 0 <= u < U && 0 <= v < V
    ensures |q| == 4 && q[0] == Cell(u, v)
    ensures forall k :: 0 <= k < 4 ==> InGrid(U, V, q[k])
    ensures q[1].v == v && q[3].u == u && q[2] == Cell(q[1].u, q[3].v)
    ensures q[1].u == (if u == U - 1 then 0 else u + 1)
    ensures q[3].v == (if v == V - 1 then 0 else v + 1)
  {
    var u1, v1 := Next(U, u), Next(V, v);
    [Cell(u, v), Cell(u1, v), Cell(u1, v1), Cell(u, v1)]
  }

  /** Half h of the quad at (u, v): its corners 0, 1, 2 for h = 0 and 0, 2, 3 otherwise. */
  function HalfQuad(U: int, V: int, u: int, v: int, h: int): Triangle {
    var u1, v1 := Next(U, u), Next(V, v);
    if h == 0 then Triangle(Cell(u, v), Cell(u1, v), Cell(u1, v1))
    else Triangle(Cell(u, v), Cell(u1, v1), Cell(u, v1))
  }

  /**
   * Half h takes the corners `i[0]`, `i[1 + h]`, `i[2 + h]` of the quad, all
   * cells of the grid; the two halves share the diagonal from corner 0 to
   * corner 2.
   */
  lemma HalfQuadsSplitQuad(U: int, V: int, u: int, v: int, h: int)
    requires 0 <= u < U && 0 <= v < V && (h == 0 || h == 1)
    ensures var q, t := QuadCorners(U, V, u, v), HalfQuad(U, V, u, v, h);
      && t == Triangle(q[0], q[1 + h], q[2 + h])
      && InGrid(U, V, t.a) && InGrid(U, V, t.b) && InGrid(U, V, t.c)
    ensures HalfQuad(U, V, u, v, 0).a == HalfQuad(U, V, u, v, 1).a
    ensures HalfQuad(U, V, u, v, 0).c == HalfQuad(U, V, u, v, 1).b
  {
  }

  /** The triangles of quads (u, 0) .. (u, n - 1) of one row, two per quad, half 0 first. */
  function RowTriangles(U: int, V: int, u: int, n: int): seq<Triangle>
    decreases n
  {
    if n <= 0 then []
    else RowTriangles(U, V, u, n - 1) + [HalfQuad(U, V, u, n - 1, 0), HalfQuad(U, V, u, n - 1, 1)]
  }

  /** The triangles of the quads of rows 0 .. m - 1, n quads per row, row by row. */
  function GridTriangles(U: int, V: int, m: int, n: int): seq<Triangle>
    decreases m
  {
    if m <= 0 then [] else GridTriangles(U, V, m - 1, n) + RowTriangles(U, V, m - 1, n)
  }

  /**
   * Every triangle `generateTrianglesAndUVs` emits, in emission order:
   * Sweep(U, closeU) rows of Sweep(V, closeV) quads, two triangles each.
   */
  function Triangulation(U: int, V: int, closeU: bool, closeV: bool): seq<Triangle> {
    GridTriangles(U, V, Sweep(U, closeU), Sweep(V, closeV))
  }

  /** One row of n quads holds 2 n triangles. */
  lemma {:induction false} RowTrianglesLength(U: int, V: int, u: int, n: int)
    requires 0 <= n
    ensures |RowTriangles(U, V, u, n)| == 2 * n
    decreases n
  {
    if n > 0 {
      RowTrianglesLength(U, V, u, n - 1);
    }
  }

  /** m rows of n quads hold 2 m n triangles. */
  lemma {:induction false} GridTrianglesLength(U: int, V: int, m: int, n: int)
    requires 0 <= m && 0 <= n
    ensures |GridTriangles(U, V, m, n)| == 2 * (m * n)
    decreases m
  {
    if m > 0 {
      GridTrianglesLength(U, V, m - 1, n);
      RowTrianglesLength(U, V, m - 1, n);
      MulSucc(m - 1, n);
    }
  }

  /** The triangulation has two triangles per swept quad. */
  lemma TriangulationLength(U: int, V: int, closeU: bool, closeV: bool)
    ensures |Triangulation(U, V, closeU, closeV)| == 2 * (Sweep(U, closeU) * Sweep(V, closeV))
  {
    SweepRange(U, closeU);
    SweepRange(V, closeV);
    GridTrianglesLength(U, V, Sweep(U, closeU), Sweep(V, closeV));
  }

  /** A row of the grid stays within the grid. */
  lemma {:induction false} RowTrianglesWithinGrid(U: int, V: int, u: int, n: int)
    requires 0 <= u < U && n <= V
    ensures WithinGrid(U, V, RowTriangles(U, V, u, n))
    decreases n
  {
    if n > 0 {
      RowTrianglesWithinGrid(U, V, u, n - 1);
      HalfQuadsSplitQuad(U, V, u, n - 1, 0);
      HalfQuadsSplitQuad(U, V, u, n - 1, 1);
    }
  }

  /** Rows 0 .. m - 1 of the grid stay within the grid. */
  lemma {:induction false} GridTrianglesWithinGrid(U: int, V: int, m: int, n: int)
    requires m <= U && n <= V
    ensures WithinGrid(U, V, GridTriangles(U, V, m, n))
    decreases m
  {
    if m > 0 {
      GridTrianglesWithinGrid(U, V, m - 1, n);
      RowTrianglesWithinGrid(U, V, m - 1, n);
    }
  }

  /** Every corner of every emitted triangle is a cell of the grid. */
  lemma TriangulationWithinGrid(U: int, V: int, closeU: bool, closeV: bool)
    ensures WithinGrid(U, V, Triangulation(U, V, closeU, closeV))
  {
    var m, n := Sweep(U, closeU), Sweep(V, closeV);
    SweepRange(U, closeU);
    SweepRange(V, closeV);
    if m > 0 && n > 0 {
      GridTrianglesWithinGrid(U, V, m, n);
    } else if m > 0 {
      RowsOfNoQuads(U, V, m, n);
    }
  }

  /** With no quad per row every row is empty. */
  lemma {:induction false} RowsOfNoQuads(U: int, V: int, m: int, n: int)
    requires n <= 0
    ensures GridTriangles(U, V, m, n) == []
    decreases m
  {
    if m > 0 {
      RowsOfNoQuads(U, V, m - 1, n);
    }
  }

  /** Quad (u, v) of a row yields triangles 2v and 2v + 1 of that row. */
  lemma {:induction false} RowTrianglesAt(U: int, V: int, u: int, n: int, v: int, h: int)
    requires 0 <= v < n && (h == 0 || h == 1)
    ensures |RowTriangles(U, V, u, n)| == 2 * n
    ensures RowTriangles(U, V, u, n)[2 * v + h] == HalfQuad(U, V, u, v, h)
    decreases n
  {
    RowTrianglesLength(U, V, u, n);
    RowTrianglesLength(U, V, u, n - 1);
    if v < n - 1 {
      RowTrianglesAt(U, V, u, n - 1, v, h);
    }
  }

  /** Quad (u, v) yields triangles 2(u n + v) and 2(u n + v) + 1: every quad is visited once, row by row. */
  lemma {:induction false} GridTrianglesAt(U: int, V: int, m: int, n: int, u: int, v: int, h: int)
    requires 0 <= u < m && 0 <= v < n && (h == 0 || h == 1)
    ensures 0 <= 2 * (u * n + v) + h < |GridTriangles(U, V, m, n)|
    ensures GridTriangles(U, V, m, n)[2 * (u * n + v) + h] == HalfQuad(U, V, u, v, h)
    decreases m
  {
    var g, r := GridTriangles(U, V, m - 1, n), RowTriangles(U, V, m - 1, n);
    var k := 2 * (u * n + v) + h;
    assert GridTriangles(U, V, m, n) == g + r;
    GridTrianglesLength(U, V, m, n);
    VIRange(m, n, u, v);
    if u < m - 1 {
      GridTrianglesAt(U, V, m - 1, n, u, v, h);
      assert (g + r)[k] == g[k];
    } else {
      GridTrianglesLength(U, V, m - 1, n);
      var p := (m - 1) * n;
      assert u * n == p;
      assert k - |g| == 2 * v + h;
      RowTrianglesAt(U, V, u, n, v, h);
      assert (g + r)[k] == r[2 * v + h];
    }
  }

  /** The positions of cells (u, 0) .. (u, n - 1): one row as `generateUVVertex` fills it. */
  function SampleRow(s: Surface, u: int, n: int): (g: seq<Vec3>)
    ensures |g| == if n <= 0 then 0 else n
    decreases n
  {
    if n <= 0 then [] else SampleRow(s, u, n - 1) + [s.Position(Cell(u, n - 1))]
  }

  /** What `generateUVVertex` stores in `_uvVertex`: rows 0 .. m - 1 of V cells each, row after row. */
  function SampleRows(s: Surface, V: int, m: int): (g: seq<Vec3>)
    decreases m
  {
    if m <= 0 then [] else SampleRows(s, V, m - 1) + SampleRow(s, m - 1, V)
  }

  lemma {:induction false} SampleRowAt(s: Surface, u: int, n: int, v: int)
    requires 0 <= v < n
    ensures SampleRow(s, u, n)[v] == s.Position(Cell(u, v))
    decreases n
  {
    if v < n - 1 {
      SampleRowAt(s, u, n - 1, v);
    }
  }

  lemma {:induction false} SampleRowsLength(s: Surface, V: int, m: int)
    requires 0 <= V && 0 <= m
    ensures |SampleRows(s, V, m)| == m * V
    decreases m
  {
    if m > 0 {
      SampleRowsLength(s, V, m - 1);
      MulSucc(m - 1, V);
    }
  }

  /** Every cell of the grid finds its own position at its index VI(u, v). */
  lemma {:induction false} SampleRowsAt(s: Surface, U: int, V: int, u: int, v: int)
    requires 0 <= u < U && 0 <= v < V
    ensures 0 <= VI(V, u, v) < |SampleRows(s, V, U)|
    ensures SampleRows(s, V, U)[VI(V, u, v)] == s.Position(Cell(u, v))
    decreases U
  {
    var prev := SampleRows(s, V, U - 1);
    SampleRowsLength(s, V, U - 1);
    SampleRowsLength(s, V, U);
    VIRange(U, V, u, v);
    if u < U - 1 {
      SampleRowsAt(s, U - 1, V, u, v);
    } else {
      SampleRowAt(s, u, V, v);
      assert VI(V, u, v) - |prev| == v;
    }
  }

  /** g has one entry per cell of a U x V grid, and cell (u, v) holds its position at index `VI(u, v)`. */
  predicate SampledGrid(s: Surface, U: int, V: int, g: seq<Vec3>) {
    && |g| == U * V
    && forall u, v {:trigger g[VI(V, u, v)]} :: 0 <= u < U && 0 <= v < V ==>
         0 <= VI(V, u, v) < |g| && g[VI(V, u, v)] == s.Position(Cell(u, v))
  }

  /** The samples taken row after row are such a grid. */
  lemma SampleRowsGrid(s: Surface, U: int, V: int)
    requires 0 <= U && 0 <= V
    ensures SampledGrid(s, U, V, SampleRows(s, V, U))
  {
    SampleRowsLength(s, V, U);
    forall u, v | 0 <= u < U && 0 <= v < V
      ensures 0 <= VI(V, u, v) < |SampleRows(s, V, U)| && SampleRows(s, V, U)[VI(V, u, v)] == s.Position(Cell(u, v))
    {
      SampleRowsAt(s, U, V, u, v);
    }
  }

  /** Each cell of a sampled grid holds the position of that cell. */
  lemma SampledGridAt(s: Surface, U: int, V: int, g: seq<Vec3>, u: int, v: int)
    requires SampledGrid(s, U, V, g) && 0 <= u < U && 0 <= v < V
    ensures 0 <= VI(V, u, v) < |g| && g[VI(V, u, v)] == s.Position(Cell(u, v))
  {
    VIRange(U, V, u, v);
    assert g[VI(V, u, v)] == s.Position(Cell(u, v));
  }

  /**
   * Writing the position of cell (u, v) at its index, after rows 0 .. u - 1
   * and cells (u, 0) .. (u, v - 1) were written, extends the written prefix
   * by that cell.
   */
  lemma SampleStep(s: Surface, V: int, g: seq<Vec3>, u: int, v: int)
    requires 0 <= v < V && 0 <= VI(V, u, v) < |g|
    requires g[..VI(V, u, v)] == SampleRows(s, V, u) + SampleRow(s, u, v)
    ensures g[VI(V, u, v) := s.Position(Cell(u, v))][..VI(V, u, v) + 1] == SampleRows(s, V, u) + SampleRow(s, u, v + 1)
  {
    var k, p := VI(V, u, v), s.Position(Cell(u, v));
    assert g[k := p][..k + 1] == g[..k] + [p];
    AppendAssoc(SampleRows(s, V, u), SampleRow(s, u, v), [p]);
  }

  /** The positions pushed into `_triangles`: three per triangle, corner by corner. */
  function Positions(s: Surface, tris: seq<Triangle>): (p: seq<Vec3>)
    ensures |p| == 3 * |tris|
  {
    if tris == [] then []
    else
      var t := tris[|tris| - 1];
      Positions(s, tris[..|tris| - 1]) + [s.Position(t.a), s.Position(t.b), s.Position(t.c)]
  }

  /** The coordinates pushed into `_uvs`: `UV` of each corner's own cell. */
  function UVs(s: Surface, tris: seq<Triangle>): (w: seq<Vec2>)
    ensures |w| == 3 * |tris|
  {
    if tris == [] then []
    else
      var t := tris[|tris| - 1];
      UVs(s, tris[..|tris| - 1]) + [s.UVAt(t.a), s.UVAt(t.b), s.UVAt(t.c)]
  }

  /** The face normal `halfQuadVertex` and `halfQuadFlatNormal` compute for t. */
  function FaceNormal(s: Surface, t: Triangle): Vec3 {
    Normal(s.Position(t.a), s.Position(t.b), s.Position(t.c))
  }

  /** The normals the flat pass pushes: the face normal, three times per triangle. */
  function FlatNormals(s: Surface, tris: seq<Triangle>): (ns: seq<Vec3>)
    ensures |ns| == 3 * |tris|
  {
    if tris == [] then []
    else
      var n := FaceNormal(s, tris[|tris| - 1]);
      FlatNormals(s, tris[..|tris| - 1]) + [n, n, n]
  }

  /** `acc[i]` where i is an index of acc; the zero vector elsewhere. */
  function Lookup(acc: seq<Vec3>, i: int): Vec3 {
    if 0 <= i < |acc| then acc[i] else Zero
  }

  /** The normals the smooth pass pushes: for each corner, the entry of `acc` at the corner's cell. */
  function CellNormals(acc: seq<Vec3>, V: int, tris: seq<Triangle>): (ns: seq<Vec3>)
    ensures |ns| == 3 * |tris|
  {
    if tris == [] then []
    else
      var t := tris[|tris| - 1];
      CellNormals(acc, V, tris[..|tris| - 1]) + CornerNormals(acc, V, t)
  }

  /** The stored normals of the three corners of t, in corner order. */
  function CornerNormals(acc: seq<Vec3>, V: int, t: Triangle): seq<Vec3> {
    [Lookup(acc, Index(V, t.a)), Lookup(acc, Index(V, t.b)), Lookup(acc, Index(V, t.c))]
  }

  /** Pushing the triangles of a then those of b pushes the positions of a + b. */
  lemma {:induction false} PositionsAppend(s: Surface, a: seq<Triangle>, b: seq<Triangle>)
    ensures Positions(s, a + b) == Positions(s, a) + Positions(s, b)
    decreases |b|
  {
    if b != [] {
      var b' := b[..|b| - 1];
      assert (a + b)[..|a + b| - 1] == a + b';
      PositionsAppend(s, a, b');
    } else {
      assert a + b == a;
    }
  }

  lemma {:induction false} UVsAppend(s: Surface, a: seq<Triangle>, b: seq<Triangle>)
    ensures UVs(s, a + b) == UVs(s, a) + UVs(s, b)
    decreases |b|
  {
    if b != [] {
      var b' := b[..|b| - 1];
      assert (a + b)[..|a + b| - 1] == a + b';
      UVsAppend(s, a, b');
    } else {
      assert a + b == a;
    }
  }

  lemma {:induction false} FlatNormalsAppend(s: Surface, a: seq<Triangle>, b: seq<Triangle>)
    ensures FlatNormals(s, a + b) == FlatNormals(s, a) + FlatNormals(s, b)
    decreases |b|
  {
    if b != [] {
      var b' := b[..|b| - 1];
      assert (a + b)[..|a + b| - 1] == a + b';
      FlatNormalsAppend(s, a, b');
    } else {
      assert a + b == a;
    }
  }

  lemma {:induction false} CellNormalsAppend(acc: seq<Vec3>, V: int, a: seq<Triangle>, b: seq<Triangle>)
    ensures CellNormals(acc, V, a + b) == CellNormals(acc, V, a) + CellNormals(acc, V, b)
    decreases |b|
  {
    if b != [] {
      var b' := b[..|b| - 1];
      assert (a + b)[..|a + b| - 1] == a + b';
      CellNormalsAppend(acc, V, a, b');
    } else {
      assert a + b == a;
    }
  }

  lemma AppendAssoc<T>(a: seq<T>, b: seq<T>, c: seq<T>)
    ensures (a + b) + c == a + (b + c)
  {
  }

  /*
   * The step lemmas below carry a loop invariant of the form
   * `stream == start + Stream(first quads)` across one quad (the row steps)
   * or across one finished row (the grid steps).
   */

  lemma FlatNormalsRowStep(s: Surface, start: seq<Vec3>, cur: seq<Vec3>, post: seq<Vec3>, U: int, V: int, u: int, v: int)
    requires 0 <= v
    requires cur == start + FlatNormals(s, RowTriangles(U, V, u, v))
    requires var n0, n1 := FaceNormal(s, HalfQuad(U, V, u, v, 0)), FaceNormal(s, HalfQuad(U, V, u, v, 1));
      post == (cur + [n0, n0, n0]) + [n1, n1, n1]
    ensures post == start + FlatNormals(s, RowTriangles(U, V, u, v + 1))
  {
    var t0, t1 := HalfQuad(U, V, u, v, 0), HalfQuad(U, V, u, v, 1);
    FlatNormalsAppend(s, RowTriangles(U, V, u, v), [t0, t1]);
    assert [t0, t1][..1] == [t0];
  }

  lemma FlatNormalsGridStep(s: Surface, start: seq<Vec3>, mid: seq<Vec3>, post: seq<Vec3>, U: int, V: int, u: int, n: int)
    requires 0 <= u
    requires mid == start + FlatNormals(s, GridTriangles(U, V, u, n))
    requires post == mid + FlatNormals(s, RowTriangles(U, V, u, n))
    ensures post == start + FlatNormals(s, GridTriangles(U, V, u + 1, n))
  {
    assert GridTriangles(U, V, u + 1, n) == GridTriangles(U, V, u, n) + RowTriangles(U, V, u, n);
    FlatNormalsAppend(s, GridTriangles(U, V, u, n), RowTriangles(U, V, u, n));
    AppendAssoc(start, FlatNormals(s, GridTriangles(U, V, u, n)), FlatNormals(s, RowTriangles(U, V, u, n)));
  }

  lemma CellNormalsRowStep(acc: seq<Vec3>, start: seq<Vec3>, cur: seq<Vec3>, post: seq<Vec3>, U: int, V: int, u: int, v: int)
    requires 0 <= v
    requires cur == start + CellNormals(acc, V, RowTriangles(U, V, u, v))
    requires post == (cur + CornerNormals(acc, V, HalfQuad(U, V, u, v, 0))) + CornerNormals(acc, V, HalfQuad(U, V, u, v, 1))
    ensures post == start + CellNormals(acc, V, RowTriangles(U, V, u, v + 1))
  {
    var t0, t1 := HalfQuad(U, V, u, v, 0), HalfQuad(U, V, u, v, 1);
    CellNormalsAppend(acc, V, RowTriangles(U, V, u, v), [t0, t1]);
    assert [t0, t1][..1] == [t0];
  }

  lemma CellNormalsGridStep(acc: seq<Vec3>, start: seq<Vec3>, mid: seq<Vec3>, post: seq<Vec3>, U: int, V: int, u: int, n: int)
    requires 0 <= u
    requires mid == start + CellNormals(acc, V, GridTriangles(U, V, u, n))
    requires post == mid + CellNormals(acc, V, RowTriangles(U, V, u, n))
    ensures post == start + CellNormals(acc, V, GridTriangles(U, V, u + 1, n))
  {
    assert GridTriangles(U, V, u + 1, n) == GridTriangles(U, V, u, n) + RowTriangles(U, V, u, n);
    CellNormalsAppend(acc, V, GridTriangles(U, V, u, n), RowTriangles(U, V, u, n));
    AppendAssoc(start, CellNormals(acc, V, GridTriangles(U, V, u, n)), CellNormals(acc, V, RowTriangles(U, V, u, n)));
  }

  /**
   * Vertex k of every stream stems from corner k % 3 of triangle k / 3: its
   * position and UV are that cell's and its flat normal is the triangle's
   * face normal.
   */
  lemma {:induction false} VertexAt(s: Surface, tris: seq<Triangle>, k: int)
    requires 0 <= k < 3 * |tris|
    ensures var c := tris[k / 3].Corner(k % 3);
      && Positions(s, tris)[k] == s.Position(c)
      && UVs(s, tris)[k] == s.UVAt(c)
      && FlatNormals(s, tris)[k] == FaceNormal(s, tris[k / 3])
  {
    var n := |tris| - 1;
    var prefix := tris[..n];
    if k < 3 * n {
      VertexAt(s, prefix, k);
      assert prefix[k / 3] == tris[k / 3];
    }
  }

  /** The smooth normal pushed as vertex k is the entry of `acc` at the cell of corner k % 3 of triangle k / 3. */
  lemma {:induction false} CellNormalAt(acc: seq<Vec3>, U: int, V: int, tris: seq<Triangle>, k: int)
    requires |acc| == U * V && WithinGrid(U, V, tris)
    requires 0 <= k < 3 * |tris|
    ensures var c := tris[k / 3].Corner(k % 3);
      && 0 <= Index(V, c) < U * V
      && CellNormals(acc, V, tris)[k] == acc[Index(V, c)]
  {
    var n := |tris| - 1;
    var prefix := tris[..n];
    var c := tris[k / 3].Corner(k % 3);
    VIRange(U, V, c.u, c.v);
    if k < 3 * n {
      assert WithinGrid(U, V, prefix);
      CellNormalAt(acc, U, V, prefix, k);
      assert prefix[k / 3] == tris[k / 3];
    }
  }

  /** Positions and UVs stay in step: the position pushed as vertex k is `F` of the UV pushed as vertex k. */
  lemma PositionIsImageOfUV(s: Surface, tris: seq<Triangle>, k: int)
    requires 0 <= k < 3 * |tris|
    ensures Positions(s, tris)[k] == s.F(UVs(s, tris)[k])
  {
    VertexAt(s, tris, k);
  }

  /**
   * The flat normals of triangle j: its three vertex normals are one vector,
   * perpendicular to both edges leaving its first pushed position.
   */
  lemma FlatNormalsOfTriangle(s: Surface, tris: seq<Triangle>, j: int)
    requires 0 <= j < |tris|
    ensures var p, ns := Positions(s, tris), FlatNormals(s, tris);
      && ns[3 * j] == ns[3 * j + 1] == ns[3 * j + 2]
      && Dot(ns[3 * j], Sub(p[3 * j + 1], p[3 * j])) == 0.0
      && Dot(ns[3 * j], Sub(p[3 * j + 2], p[3 * j])) == 0.0
  {
    VertexAt(s, tris, 3 * j);
    VertexAt(s, tris, 3 * j + 1);
    VertexAt(s, tris, 3 * j + 2);
    var t := tris[j];
    NormalProperties(s.Position(t.a), s.Position(t.b), s.Position(t.c));
  }
}
