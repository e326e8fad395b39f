/**
 * The per-cell accumulators `_divideCount` and `_uvNormal` that
 * `halfQuadVertex` updates: how many triangle corners reference each cell,
 * and the sum of those triangles' face normals.
 */
module Accumulators {
  import opened Geometry
  import opened Grid
  import opened Tessellation

  function Hit(c: Cell, x: Cell): nat {
    if c == x then 1 else 0
  }

  /** How many corners of t are the cell x: what one `halfQuadVertex` adds to the count of x. */
  function CornerHits(t: Triangle, x: Cell): nat {
    Hit(t.a, x) + Hit(t.b, x) + Hit(t.c, x)
  }

  /** How many corners of the triangles in tris are the cell x. */
  function Incidence(tris: seq<Triangle>, x: Cell): nat {
    if tris == [] then 0
    else Incidence(tris[..|tris| - 1], x) + CornerHits(tris[|tris| - 1], x)
  }

  /** The entry acc of cell x after `_uvNormal[i[j]] += n` for the corners j = 0, 1, 2 of t, in that order. */
  function Accumulate(acc: Vec3, t: Triangle, x: Cell, n: Vec3): Vec3 {
    var acc0 := if t.a == x then Add(acc, n) else acc;
    var acc1 := if t.b == x then Add(acc0, n) else acc0;
    if t.c == x then Add(acc1, n) else acc1
  }

  /** The `_uvNormal` entry of cell x, starting from init, after the triangles in tris were emitted. */
  function NormalSum(s: Surface, init: Vec3, tris: seq<Triangle>, x: Cell): Vec3 {
    if tris == [] then init
    else
      var t := tris[|tris| - 1];
      Accumulate(NormalSum(s, init, tris[..|tris| - 1], x), t, x, FaceNormal(s, t))
  }

  /** `acc[i] += n` at an index i of acc. */
  function AddAt(acc: seq<Vec3>, i: int, n: Vec3): (r: seq<Vec3>)
    ensures |r| == |acc|
  {
    if 0 <= i < |acc| then acc[i := Add(acc[i], n)] else acc
  }

  /** `++cnt[i]` at an index i of cnt. */
  function IncAt(cnt: seq<int>, i: int): (r: seq<int>)
    ensures |r| == |cnt|
  {
    if 0 <= i < |cnt| then cnt[i := cnt[i] + 1] else cnt
  }

  /** `_uvNormal[i[j]] += n` for the corners j = 0, 1, 2 of t, in that order. */
  function AddToCorners(acc: seq<Vec3>, V: int, t: Triangle, n: Vec3): (r: seq<Vec3>)
    ensures |r| == |acc|
  {
    AddAt(AddAt(AddAt(acc, Index(V, t.a), n), Index(V, t.b), n), Index(V, t.c), n)
  }

  /** `++_divideCount[i[j]]` for the corners j = 0, 1, 2 of t, in that order. */
  function CountCorners(cnt: seq<int>, V: int, t: Triangle): (r: seq<int>)
    ensures |r| == |cnt|
  {
    IncAt(IncAt(IncAt(cnt, Index(V, t.a)), Index(V, t.b)), Index(V, t.c))
  }

  /** The whole of `_uvNormal`, starting from init, after the triangles in tris were emitted. */
  function Sums(s: Surface, init: seq<Vec3>, V: int, tris: seq<Triangle>): (r: seq<Vec3>)
    ensures |r| == |init|
  {
    if tris == [] then init
    else
      var t := tris[|tris| - 1];
      AddToCorners(Sums(s, init, V, tris[..|tris| - 1]), V, t, FaceNormal(s, t))
  }

  /** The whole of `_divideCount`, starting from init, after the triangles in tris were emitted. */
  function Counts(init: seq<int>, V: int, tris: seq<Triangle>): (r: seq<int>)
    ensures |r| == |init|
  {
    if tris == [] then init
    else
      var t := tris[|tris| - 1];
      CountCorners(Counts(init, V, tris[..|tris| - 1]), V, t)
  }

  /**
   * The four vectors `halfQuadVertex` updates: `_triangles`, `_uvs`,
   * `_uvNormal` and `_divideCount`.
   */
  datatype VertexStreams = VertexStreams(triangles: seq<Vec3>, uvs: seq<Vec2>, uvNormal: seq<Vec3>, divideCount: seq<int>)

  /**
   * One `halfQuadVertex` call emitting triangle t: its three positions and
   * UVs are pushed, and each corner's cell gains the face normal and one count.
   */
  function EmitTriangle(s: Surface, V: int, st: VertexStreams, t: Triangle): VertexStreams {
    VertexStreams(
      st.triangles + [s.Position(t.a), s.Position(t.b), s.Position(t.c)],
      st.uvs + [s.UVAt(t.a), s.UVAt(t.b), s.UVAt(t.c)],
      AddToCorners(st.uvNormal, V, t, FaceNormal(s, t)),
      CountCorners(st.divideCount, V, t))
  }

  /** The four vectors after one `halfQuadVertex` call per triangle of tris, in order, starting from st. */
  function EmitTriangles(s: Surface, V: int, st: VertexStreams, tris: seq<Triangle>): VertexStreams
    decreases |tris|
  {
    if tris == [] then st
    else EmitTriangle(s, V, EmitTriangles(s, V, st, tris[..|tris| - 1]), tris[|tris| - 1])
  }

  /**
   * The same four vectors stream by stream: the positions and UVs of tris
   * appended, their face normals and corner counts accumulated per cell.
   */
  function Emitted(s: Surface, V: int, st: VertexStreams, tris: seq<Triangle>): VertexStreams {
    VertexStreams(
      st.triangles + Positions(s, tris),
      st.uvs + UVs(s, tris),
      Sums(s, st.uvNormal, V, tris),
      Counts(st.divideCount, V, tris))
  }

  /** Emitting the triangles one call at a time fills each stream as its own definition says. */
  lemma {:induction false} EmitTrianglesStreams(s: Surface, V: int, st: VertexStreams, tris: seq<Triangle>)
    ensures EmitTriangles(s, V, st, tris) == Emitted(s, V, st, tris)
    decreases |tris|
  {
    if tris != [] {
      var p, t := tris[..|tris| - 1], tris[|tris| - 1];
      EmitTrianglesStreams(s, V, st, p);
      AppendAssoc(st.triangles, Positions(s, p), [s.Position(t.a), s.Position(t.b), s.Position(t.c)]);
      AppendAssoc(st.uvs, UVs(s, p), [s.UVAt(t.a), s.UVAt(t.b), s.UVAt(t.c)]);
    } else {
      assert st.triangles + [] == st.triangles && st.uvs + [] == st.uvs;
    }
  }

  /**
   * r is what the four vectors hold after the triangles of tris were emitted
   * after st. It is stated for the prefix of tris as long as tris, that is
   * tris itself, so that a proof unfolds the emission only where it names
   * `EmitTriangles(s, V, st, ...)`; `StreamedIs` and `IsStreamed` convert.
   */
  ghost predicate Streamed(s: Surface, V: int, st: VertexStreams, tris: seq<Triangle>, r: VertexStreams) {
    forall pre {:trigger EmitTriangles(s, V, st, pre)} :: pre <= tris && |tris| <= |pre| ==> r == EmitTriangles(s, V, st, pre)
  }

  lemma StreamedIs(s: Surface, V: int, st: VertexStreams, tris: seq<Triangle>, r: VertexStreams)
    requires Streamed(s, V, st, tris, r)
    ensures r == EmitTriangles(s, V, st, tris)
  {
    assert tris <= tris;
  }

  lemma IsStreamed(s: Surface, V: int, st: VertexStreams, tris: seq<Triangle>, r: VertexStreams)
    requires r == EmitTriangles(s, V, st, tris)
    ensures Streamed(s, V, st, tris, r)
  {
    forall pre | pre <= tris && |tris| <= |pre|
      ensures r == EmitTriangles(s, V, st, pre)
    {
      assert pre == tris;
    }
  }

  /** Emitting one more triangle after tris emits tris + [t]. */
  lemma StreamedSnoc(s: Surface, V: int, st: VertexStreams, tris: seq<Triangle>, cur: VertexStreams, t: Triangle)
    requires Streamed(s, V, st, tris, cur)
    ensures Streamed(s, V, st, tris + [t], EmitTriangle(s, V, cur, t))
  {
    StreamedIs(s, V, st, tris, cur);
    var all := tris + [t];
    assert all[..|all| - 1] == tris && all[|all| - 1] == t;
    IsStreamed(s, V, st, all, EmitTriangle(s, V, cur, t));
  }

  /** Emitting a and then b emits a + b. */
  lemma {:induction false} EmitTrianglesAppend(s: Surface, V: int, st: VertexStreams, a: seq<Triangle>, b: seq<Triangle>)
    ensures EmitTriangles(s, V, EmitTriangles(s, V, st, a), b) == EmitTriangles(s, V, st, a + b)
    decreases |b|
  {
    if b != [] {
      var b' := b[..|b| - 1];
      assert (a + b)[..|a + b| - 1] == a + b' && (a + b)[|a + b| - 1] == b[|b| - 1];
      EmitTrianglesAppend(s, V, st, a, b');
    } else {
      assert a + b == a;
    }
  }

  /** Emitting a after st and then b emits a + b after st. */
  lemma StreamedConcat(s: Surface, V: int, st: VertexStreams, a: seq<Triangle>, mid: VertexStreams, b: seq<Triangle>, r: VertexStreams)
    requires Streamed(s, V, st, a, mid) && Streamed(s, V, mid, b, r)
    ensures Streamed(s, V, st, a + b, r)
  {
    StreamedIs(s, V, st, a, mid);
    StreamedIs(s, V, mid, b, r);
    EmitTrianglesAppend(s, V, st, a, b);
    IsStreamed(s, V, st, a + b, r);
  }

  /** `halfQuadVertex(u, v, 0)` followed by `halfQuadVertex(u, v, 1)`. */
  function EmitQuad(s: Surface, U: int, V: int, st: VertexStreams, u: int, v: int): VertexStreams {
    EmitTriangle(s, V, EmitTriangle(s, V, st, HalfQuad(U, V, u, v, 0)), HalfQuad(U, V, u, v, 1))
  }

  /** Emitting both halves of quad (u, w - 1) after the first w - 1 quads of row u emits the first w. */
  lemma StreamedQuad(s: Surface, U: int, V: int, st: VertexStreams, u: int, w: int, cur: VertexStreams)
    requires 0 < w && Streamed(s, V, st, RowTriangles(U, V, u, w - 1), cur)
    ensures Streamed(s, V, st, RowTriangles(U, V, u, w), EmitQuad(s, U, V, cur, u, w - 1))
  {
    var r, t0, t1 := RowTriangles(U, V, u, w - 1), HalfQuad(U, V, u, w - 1, 0), HalfQuad(U, V, u, w - 1, 1);
    StreamedSnoc(s, V, st, r, cur, t0);
    StreamedSnoc(s, V, st, r + [t0], EmitTriangle(s, V, cur, t0), t1);
    assert RowTriangles(U, V, u, w) == (r + [t0]) + [t1];
  }

  /** Appending row u to the first u rows gives the first u + 1 rows. */
  lemma StreamedRow(s: Surface, U: int, V: int, st: VertexStreams, u: int, n: int, mid: VertexStreams, r: VertexStreams)
    requires 0 <= u && Streamed(s, V, st, GridTriangles(U, V, u, n), mid)
    requires Streamed(s, V, mid, RowTriangles(U, V, u, n), r)
    ensures Streamed(s, V, st, GridTriangles(U, V, u + 1, n), r)
  {
    StreamedConcat(s, V, st, GridTriangles(U, V, u, n), mid, RowTriangles(U, V, u, n), r);
  }

  /** Nothing emitted, nothing changed. */
  lemma StreamedNothing(s: Surface, V: int, st: VertexStreams)
    ensures Streamed(s, V, st, [], st)
  {
    IsStreamed(s, V, st, [], st);
  }

  /** The entry of cell x after the three `+=` of one triangle t is Accumulate of its old value. */
  lemma AddToCornersAt(acc: seq<Vec3>, V: int, t: Triangle, n: Vec3, x: Cell)
    requires 0 <= Index(V, t.a) < |acc| && 0 <= Index(V, t.b) < |acc| && 0 <= Index(V, t.c) < |acc|
    requires 0 <= Index(V, x) < |acc|
    requires 0 <= t.a.v < V && 0 <= t.b.v < V && 0 <= t.c.v < V && 0 <= x.v < V
    ensures AddToCorners(acc, V, t, n)[Index(V, x)] == Accumulate(acc[Index(V, x)], t, x, n)
  {
    VIInjective(V, t.a.u, t.a.v, x.u, x.v);
    VIInjective(V, t.b.u, t.b.v, x.u, x.v);
    VIInjective(V, t.c.u, t.c.v, x.u, x.v);
  }

  /** The count of cell x after the three `++` of one triangle t grows by the number of t's corners at x. */
  lemma CountCornersAt(cnt: seq<int>, V: int, t: Triangle, x: Cell)
    requires 0 <= Index(V, t.a) < |cnt| && 0 <= Index(V, t.b) < |cnt| && 0 <= Index(V, t.c) < |cnt|
    requires 0 <= Index(V, x) < |cnt|
    requires 0 <= t.a.v < V && 0 <= t.b.v < V && 0 <= t.c.v < V && 0 <= x.v < V
    ensures CountCorners(cnt, V, t)[Index(V, x)] == cnt[Index(V, x)] + CornerHits(t, x)
  {
    VIInjective(V, t.a.u, t.a.v, x.u, x.v);
    VIInjective(V, t.b.u, t.b.v, x.u, x.v);
    VIInjective(V, t.c.u, t.c.v, x.u, x.v);
  }

  /**
   * The entry of cell x of the accumulated normals is the per-cell sum
   * NormalSum: each triangle adds its face normal once per corner at x.
   */
  lemma {:induction false} SumsAt(s: Surface, init: seq<Vec3>, U: int, V: int, tris: seq<Triangle>, x: Cell)
    requires |init| == U * V && WithinGrid(U, V, tris) && InGrid(U, V, x)
    ensures 0 <= Index(V, x) < U * V
    ensures Sums(s, init, V, tris)[Index(V, x)] == NormalSum(s, init[Index(V, x)], tris, x)
  {
    VIRange(U, V, x.u, x.v);
    if tris != [] {
      var prefix := tris[..|tris| - 1];
      var t := tris[|tris| - 1];
      assert WithinGrid(U, V, prefix);
      SumsAt(s, init, U, V, prefix, x);
      VIRange(U, V, t.a.u, t.a.v);
      VIRange(U, V, t.b.u, t.b.v);
      VIRange(U, V, t.c.u, t.c.v);
      AddToCornersAt(Sums(s, init, V, prefix), V, t, FaceNormal(s, t), x);
    }
  }

  /** The count of cell x is its initial count plus the number of emitted corners at x. */
  lemma {:induction false} CountsAt(init: seq<int>, U: int, V: int, tris: seq<Triangle>, x: Cell)
    requires |init| == U * V && WithinGrid(U, V, tris) && InGrid(U, V, x)
    ensures 0 <= Index(V, x) < U * V
    ensures Counts(init, V, tris)[Index(V, x)] == init[Index(V, x)] + Incidence(tris, x)
  {
    VIRange(U, V, x.u, x.v);
    if tris != [] {
      var prefix := tris[..|tris| - 1];
      var t := tris[|tris| - 1];
      assert WithinGrid(U, V, prefix);
      CountsAt(init, U, V, prefix, x);
      VIRange(U, V, t.a.u, t.a.v);
      VIRange(U, V, t.b.u, t.b.v);
      VIRange(U, V, t.c.u, t.c.v);
      CountCornersAt(Counts(init, V, prefix), V, t, x);
    }
  }

  /**
   * `_uvNormal[i] /= (float)_divideCount[i]` for every i: entry i becomes the
   * vector that, taken count times, gives back the accumulated sum.
   */
  function Averages(acc: seq<Vec3>, counts: seq<int>): (r: seq<Vec3>)
    requires |acc| == |counts| && forall i :: 0 <= i < |counts| ==> counts[i] != 0
    ensures |r| == |acc|
    ensures forall i :: 0 <= i < |r| ==> Scale(counts[i] as real, r[i]) == acc[i]
  {
    seq(|acc|, i requires 0 <= i < |acc| => Div(acc[i], counts[i] as real))
  }

  /** Counting splits over a concatenation. */
  lemma {:induction false} IncidenceAppend(xs: seq<Triangle>, ys: seq<Triangle>, x: Cell)
    ensures Incidence(xs + ys, x) == Incidence(xs, x) + Incidence(ys, x)
    decreases |ys|
  {
    if ys != [] {
      var n := |ys| - 1;
      var zs := xs + ys;
      assert zs[..|zs| - 1] == xs + ys[..n];
      assert zs[|zs| - 1] == ys[n];
      IncidenceAppend(xs, ys[..n], x);
      assert Incidence(zs, x) == Incidence(xs + ys[..n], x) + CornerHits(ys[n], x);
      assert Incidence(ys, x) == Incidence(ys[..n], x) + CornerHits(ys[n], x);
    } else {
      assert xs + ys == xs;
    }
  }

  /**
   * When every triangle with a corner at cell x has the face normal n, the
   * accumulated normal of x is n times the count of x.
   */
  lemma {:induction false} UniformNormalSum(s: Surface, tris: seq<Triangle>, x: Cell, n: Vec3)
    requires forall k :: 0 <= k < |tris| && CornerHits(tris[k], x) > 0 ==> FaceNormal(s, tris[k]) == n
    ensures NormalSum(s, Zero, tris, x) == Scale(Incidence(tris, x) as real, n)
  {
    if tris != [] {
      var j := |tris| - 1;
      var prefix, t := tris[..j], tris[j];
      assert forall k :: 0 <= k < j ==> prefix[k] == tris[k];
      UniformNormalSum(s, prefix, x, n);
      var c := Incidence(prefix, x) as real;
      assert NormalSum(s, Zero, prefix, x) == Scale(c, n);
      assert NormalSum(s, Zero, tris, x) == Accumulate(Scale(c, n), t, x, FaceNormal(s, t));
      assert Incidence(tris, x) as real == c + CornerHits(t, x) as real;
      if CornerHits(t, x) > 0 {
        assert FaceNormal(s, t) == n;
        AccumulateUniform(c, t, x, n);
      } else {
        assert Accumulate(Scale(c, n), t, x, FaceNormal(s, t)) == Scale(c, n);
      }
    }
  }

  /** Adding n once per corner at x to c copies of n. */
  lemma AccumulateUniform(c: real, t: Triangle, x: Cell, n: Vec3)
    ensures Accumulate(Scale(c, n), t, x, n) == Scale(c + CornerHits(t, x) as real, n)
  {
    var c0 := if t.a == x then c + 1.0 else c;
    var c1 := if t.b == x then c0 + 1.0 else c0;
    ScaleStep(c, n);
    ScaleStep(c0, n);
    ScaleStep(c1, n);
  }

  lemma ScaleStep(c: real, n: Vec3)
    ensures Add(Scale(c, n), n) == Scale(c + 1.0, n)
  {
  }

  /** Dividing k copies of n by k gives n. */
  lemma AverageOfCopies(k: real, n: Vec3)
    requires k != 0.0
    ensures Div(Scale(k, n), k) == n
  {
    var r := Div(Scale(k, n), k);
    assert r.x * k == k * n.x && r.y * k == k * n.y && r.z * k == k * n.z;
  }

  /**
   * When every triangle with a corner at cell x has the face normal n, the
   * smooth pass's average for cell x is n itself.
   */
  lemma UniformNormalAverage(s: Surface, tris: seq<Triangle>, x: Cell, n: Vec3)
    requires forall k :: 0 <= k < |tris| && CornerHits(tris[k], x) > 0 ==> FaceNormal(s, tris[k]) == n
    requires Incidence(tris, x) > 0
    ensures Div(NormalSum(s, Zero, tris, x), Incidence(tris, x) as real) == n
  {
    UniformNormalSum(s, tris, x, n);
    AverageOfCopies(Incidence(tris, x) as real, n);
  }

  /**
   * Along an axis of n cells, the first m quads weigh a cell a with p for each
   * quad whose own corner is a and with q for each quad whose wrapped
   * successor corner is a.
   */
  function AxisSum(n: int, m: int, a: int, p: int, q: int): int
    requires 0 <= m <= n
  {
    if m == 0 then 0
    else AxisSum(n, m - 1, a, p, q) + (if m - 1 == a then p else 0) + (if Next(n, m - 1) == a then q else 0)
  }

  /** Adding quad row m - 1 to the first m - 1 rows adds its weight to AxisSum. */
  lemma AxisSumStep(n: int, m: int, a: int, before: int, row: int, total: int, p: int, q: int)
    requires 0 < m <= n
    requires total == before + row
    requires before == AxisSum(n, m - 1, a, p, q)
    requires row == (if m - 1 == a then p else 0) + (if Next(n, m - 1) == a then q else 0)
    ensures total == AxisSum(n, m, a, p, q)
  {
  }

  /**
   * The first m quads have cell a as their own corner iff a < m, and as
   * their successor corner iff 0 < a <= m, or a = 0 when the axis is swept
   * to the end and wraps.
   */
  lemma {:induction false} AxisSumClosedForm(n: int, m: int, a: int, p: int, q: int)
    requires 0 <= m <= n && 0 <= a < n
    ensures AxisSum(n, m, a, p, q) == (if a < m then p else 0) + (if (if a == 0 then m == n else a <= m) then q else 0)
    decreases m
  {
    if m > 0 {
      AxisSumClosedForm(n, m - 1, a, p, q);
    }
  }

  /**
   * The two halves of quad (u, v) use its own corner (u, v) and its far
   * corner (u1, v1) twice and the other two corners once.
   */
  lemma QuadHits(U: int, V: int, u: int, v: int, a: int, b: int)
    requires 0 <= u < U && 0 <= v < V
    ensures Incidence([HalfQuad(U, V, u, v, 0), HalfQuad(U, V, u, v, 1)], Cell(a, b))
         == (if u == a then (if v == b then 2 else 0) + (if Next(V, v) == b then 1 else 0) else 0)
          + (if Next(U, u) == a then (if v == b then 1 else 0) + (if Next(V, v) == b then 2 else 0) else 0)
  {
    var t0, t1 := HalfQuad(U, V, u, v, 0), HalfQuad(U, V, u, v, 1);
    var x := Cell(a, b);
    assert [t0, t1][..1] == [t0];
    assert [t0][..0] == [];
    assert Incidence([t0], x) == CornerHits(t0, x);
    assert Incidence([t0, t1], x) == CornerHits(t0, x) + CornerHits(t1, x);
  }

  /** The count of cell (a, b) within the first n quads of row u. */
  lemma {:induction false} RowIncidence(U: int, V: int, u: int, n: int, a: int, b: int)
    requires 0 <= u < U && 0 <= n <= V
    ensures Incidence(RowTriangles(U, V, u, n), Cell(a, b))
         == (if u == a then AxisSum(V, n, b, 2, 1) else 0) + (if Next(U, u) == a then AxisSum(V, n, b, 1, 2) else 0)
    decreases n
  {
    if n > 0 {
      var v := n - 1;
      var q := [HalfQuad(U, V, u, v, 0), HalfQuad(U, V, u, v, 1)];
      assert RowTriangles(U, V, u, n) == RowTriangles(U, V, u, v) + q;
      IncidenceAppend(RowTriangles(U, V, u, v), q, Cell(a, b));
      QuadHits(U, V, u, v, a, b);
      RowIncidence(U, V, u, v, a, b);
    }
  }

  /**
   * The count of cell (a, b) after the first m rows of n quads: the row
   * pattern weighs the column pattern.
   */
  lemma {:induction false} GridIncidence(U: int, V: int, m: int, n: int, a: int, b: int)
    requires 0 <= m <= U && 0 <= n <= V
    ensures Incidence(GridTriangles(U, V, m, n), Cell(a, b))
         == AxisSum(U, m, a, AxisSum(V, n, b, 2, 1), AxisSum(V, n, b, 1, 2))
    decreases m
  {
    if m > 0 {
      var before := Incidence(GridTriangles(U, V, m - 1, n), Cell(a, b));
      GridIncidence(U, V, m - 1, n, a, b);
      GridIncidenceStep(U, V, m, n, a, b, before);
    } else {
      assert GridTriangles(U, V, m, n) == [];
    }
  }

  lemma GridIncidenceStep(U: int, V: int, m: int, n: int, a: int, b: int, before: int)
    requires 0 < m <= U && 0 <= n <= V
    requires before == Incidence(GridTriangles(U, V, m - 1, n), Cell(a, b))
    requires before == AxisSum(U, m - 1, a, AxisSum(V, n, b, 2, 1), AxisSum(V, n, b, 1, 2))
    ensures Incidence(GridTriangles(U, V, m, n), Cell(a, b))
         == AxisSum(U, m, a, AxisSum(V, n, b, 2, 1), AxisSum(V, n, b, 1, 2))
  {
    var x := Cell(a, b);
    RowIncidence(U, V, m - 1, n, a, b);
    GridIncidenceSplit(U, V, m, n, x);
    AxisSumStep(U, m, a, before, Incidence(RowTriangles(U, V, m - 1, n), x),
      Incidence(GridTriangles(U, V, m, n), x), AxisSum(V, n, b, 2, 1), AxisSum(V, n, b, 1, 2));
  }

  /** The count over m rows is the count over the first m - 1 rows plus the count over row m - 1. */
  lemma GridIncidenceSplit(U: int, V: int, m: int, n: int, x: Cell)
    requires 0 < m <= U && 0 <= n <= V
    ensures Incidence(GridTriangles(U, V, m, n), x)
         == Incidence(GridTriangles(U, V, m - 1, n), x) + Incidence(RowTriangles(U, V, m - 1, n), x)
  {
    IncidenceAppend(GridTriangles(U, V, m - 1, n), RowTriangles(U, V, m - 1, n), x);
  }

  /** The count of cell (a, b) after `generateTrianglesAndUVs`, from the close flags. */
  lemma TriangulationIncidence(U: int, V: int, closeU: bool, closeV: bool, a: int, b: int)
    requires 0 <= a < U && 0 <= b < V
    ensures var m, n := Sweep(U, closeU), Sweep(V, closeV);
      var own, next := AxisSum(V, n, b, 2, 1), AxisSum(V, n, b, 1, 2);
      && 0 <= own <= 3 && 0 <= next <= 3
      && (n > 0 ==> own >= 1 && next >= 1)
      && (closeV ==> own == 3 && next == 3)
      && Incidence(Triangulation(U, V, closeU, closeV), Cell(a, b))
         == (if a < m then own else 0) + (if (if a == 0 then m == U else a <= m) then next else 0)
  {
    var m, n := Sweep(U, closeU), Sweep(V, closeV);
    SweepRange(U, closeU);
    SweepRange(V, closeV);
    SweepValue(U, closeU);
    SweepValue(V, closeV);
    var own, next := AxisSum(V, n, b, 2, 1), AxisSum(V, n, b, 1, 2);
    AxisSumClosedForm(V, n, b, 2, 1);
    AxisSumClosedForm(V, n, b, 1, 2);
    AxisSumClosedForm(U, m, a, own, next);
    GridIncidence(U, V, m, n, a, b);
  }

  /**
   * Closing both axes makes every cell a corner of exactly six triangle
   * corners, so after triangulation every `_divideCount` entry is 6.
   */
  lemma ClosedGridCountsSix(U: int, V: int, x: Cell)
    requires InGrid(U, V, x)
    ensures Incidence(Triangulation(U, V, true, true), x) == 6
  {
    SweepValue(U, true);
    SweepValue(V, true);
    TriangulationIncidence(U, V, true, true, x.u, x.v);
  }

  /**
   * When at least one quad is swept along each axis, every cell is a corner
   * of between one and six triangles: the divisions of the smooth pass never
   * divide by zero, and the count fits the source's `short`. With no quad on
   * some axis no triangle is emitted and every count stays zero.
   */
  lemma CountsWithinOneToSix(U: int, V: int, closeU: bool, closeV: bool, x: Cell)
    requires InGrid(U, V, x)
    ensures var k := Incidence(Triangulation(U, V, closeU, closeV), x);
      && k <= 6
      && (Sweep(U, closeU) > 0 && Sweep(V, closeV) > 0 <==> k >= 1)
  {
    SweepRange(U, closeU);
    SweepRange(V, closeV);
    SweepValue(U, closeU);
    SweepValue(V, closeV);
    TriangulationIncidence(U, V, closeU, closeV, x.u, x.v);
  }
}
