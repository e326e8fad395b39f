/**
 * The integer side of SurfaceGenerator: the row-major cell index VI, the
 * wrapped neighbour `(x + 1) % n`, the number of quads the triangulation
 * loops visit along one axis, and C++'s truncating `/` and `%` on `int`.
 */
module Grid {

  const INT_MIN: int := -0x8000_0000
  const INT_MAX: int := 0x7fff_ffff

  /** A grid cell (u, v) of the U x V parameter grid. */
  datatype Cell = Cell(u: int, v: int)

  predicate InGrid(U: int, V: int, c: Cell) {
    0 <= c.u < U && 0 <= c.v < V
  }

  /**
   * The segment counts handed to `generate`: `resize(U * V)` needs a
   * product that is a non-negative `int`, and the loop bounds `U - 1 + close`
   * must not overflow.
   */
  predicate Dimensions(U: int, V: int) {
    INT_MIN < U && INT_MIN < V && 0 <= U * V <= INT_MAX
  }

  /** Three per-cell vectors of lengths a, b and c, sized for a U x V grid. */
  predicate PerCell(U: int, V: int, a: int, b: int, c: int) {
    Dimensions(U, V) && a == U * V && b == U * V && c == U * V
  }

  /** `VI(u, v)`: the index of cell (u, v) in every per-cell vector, with the member `_vSegments` passed as V. */
  function VI(V: int, u: int, v: int): int {
    u * V + v
  }

  function Index(V: int, c: Cell): int {
    VI(V, c.u, c.v)
  }

  lemma MulMonotone(a: int, b: int, n: int)
    requires 0 <= n && a <= b
    ensures a * n <= b * n
  {
    assert b * n - a * n == (b - a) * n;
  }

  lemma MulSucc(m: int, n: int)
    ensures m * n + n == (m + 1) * n
  {
  }

  /** Every cell of the grid has an index of the per-cell vectors, which have U * V entries. */
  lemma VIRange(U: int, V: int, u: int, v: int)
    requires 0 <= u < U && 0 <= v < V
    ensures 0 <= VI(V, u, v) < U * V
  {
    MulMonotone(0, u, V);
    MulMonotone(u + 1, U, V);
    assert (u + 1) * V == u * V + V;
  }

  /** The index determines the cell: `idx / V` and `idx % V` recover u and v. */
  lemma VIDecode(V: int, u: int, v: int)
    requires 0 <= v < V
    ensures VI(V, u, v) / V == u && VI(V, u, v) % V == v
  {
    var i := VI(V, u, v);
    var q, r := i / V, i % V;
    assert i == q * V + r && 0 <= r < V;
    assert (q - u) * V == v - r;
    if q > u {
      MulMonotone(1, q - u, V);
    } else if q < u {
      MulMonotone(1, u - q, V);
    }
  }

  /** VI is injective on the columns 0 <= v < V. */
  lemma VIInjective(V: int, u: int, v: int, u': int, v': int)
    requires 0 <= v < V && 0 <= v' < V
    ensures VI(V, u, v) == VI(V, u', v') <==> u == u' && v == v'
  {
    VIDecode(V, u, v);
    VIDecode(V, u', v');
  }

  /** VI is onto [0, U * V): every index is the index of the cell (i / V, i % V). */
  lemma VIOnto(U: int, V: int, i: int)
    requires 0 < V && 0 <= i < U * V
    ensures 0 <= i / V < U && 0 <= i % V < V && VI(V, i / V, i % V) == i
  {
    var q := i / V;
    if q < 0 {
      MulMonotone(q, -1, V);
    } else if q >= U {
      MulMonotone(U, q, V);
    }
  }

  /** C++ `a / n` on `int`: the quotient is truncated toward zero. */
  function CDiv(a: int, n: int): (q: int)
    requires n > 0
    ensures q * n + CRem(a, n) == a
    ensures a >= 0 ==> q >= 0
    ensures a <= 0 ==> q <= 0
  {
    var b := if a >= 0 then a else -a;
    DivNonNegative(b, n);
    if a >= 0 then b / n else -(b / n)
  }

  lemma DivNonNegative(b: int, n: int)
    requires 0 <= b && 0 < n
    ensures 0 <= b / n && (b / n) * n + b % n == b && 0 <= b % n < n
  {
  }

  /** C++ `a % n` on `int`: the remainder takes the sign of the dividend. */
  function CRem(a: int, n: int): (r: int)
    requires n > 0
    ensures a >= 0 ==> 0 <= r < n
    ensures a < 0 ==> -n < r <= 0
  {
    if a >= 0 then a % n else -((-a) % n)
  }

  /** The wrapped neighbour of cell x on an axis of n cells: the next cell, or 0 after the last. */
  function Next(n: int, x: int): (r: int)
    ensures 0 <= x < n ==> 0 <= r < n
  {
    if x == n - 1 then 0 else x + 1
  }

  /** `(x + 1) % n` in `halfQuadVertex` and friends is that wrapped neighbour. */
  lemma NextIsRemainder(n: int, x: int)
    requires 0 <= x < n
    ensures CRem(x + 1, n) == Next(n, x)
  {
    if x + 1 < n {
      assert (x + 1) % n == x + 1;
    } else {
      assert (x + 1) % n == 0;
    }
  }

  /**
   * The number of iterations of `for (int u = 0; u < n - 1 + close; ++u)`:
   * the quads along one axis. A closed axis has one quad per row, an open
   * one has one fewer.
   */
  function Sweep(n: int, close: bool): int {
    var end := n - 1 + (if close then 1 else 0);
    if end > 0 then end else 0
  }

  /** No quad is swept when the axis is too short, and never more quads than cells. */
  lemma SweepRange(n: int, close: bool)
    ensures 0 <= Sweep(n, close) && (Sweep(n, close) > 0 ==> Sweep(n, close) <= n)
  {
  }

  /** A closed axis of n > 0 cells has n quads per row, an open one n - 1; an empty axis has none. */
  lemma SweepValue(n: int, close: bool)
    ensures 0 < n ==> Sweep(n, close) == (if close then n else n - 1)
    ensures n <= 0 ==> Sweep(n, close) == 0
  {
  }
}
