# SurfaceGenerator in Dafny

A model of `SurfaceGenerator`, the tessellator at the heart of the surface
viewer. A concrete surface supplies two hooks: `UV(u, v)` maps a cell of a
U x V integer grid to the surface's parameter domain, and `F(uv)` maps that
to a point in space. `generate(U, V, closeU, closeV)` then runs three passes
over the grid:

1. `generateUVVertex` stores `F(UV(u, v))` for every cell, at the row-major
   index `VI(u, v) = u * V + v`.
2. `generateTrianglesAndUVs` walks `(U - 1 + closeU) x (V - 1 + closeV)`
   quads. Neighbours wrap with `(u + 1) % U` and `(v + 1) % V`. Each quad is
   split into the triangles of corners 0, 1, 2 and 0, 2, 3. For every
   triangle, `halfQuadVertex` pushes three positions and three UVs. It also
   adds the face normal to the normal accumulator of each corner's cell and
   counts the corner in that cell's `_divideCount`.
3. `generateFlatNormals` pushes the face normal three times per triangle.
   The alternative `generateSmoothNormals` first divides each accumulated
   normal by its count, then pushes each corner's averaged cell normal.

The project has five modules:

- `Geometry`: exact vectors over reals and the cross-product normal.
- `Grid`: the index `VI`, the wrapped neighbour, the number of quads per
  axis, and C++'s truncating `/` and `%`.
- `Tessellation`: the triangles of the grid in emission order, and the
  position, UV and normal streams each pass pushes.
- `Accumulators`: the per-cell normal sums and corner counts.
- `Generator`: the class itself. Its fields are the member vectors and its
  methods are the passes, with the nested loops of the C++ and their loop
  invariants.

Each pass is proved against a specification function of the segment counts
and close flags. The properties the source relies on are then proved about
those functions:

- every index is in range;
- every quad is visited once, in row-major order;
- positions, UVs and normals stay in step vertex by vertex;
- each cell is counted as often as triangle corners reference it;
- the asserts at the end of `generate` hold.

## Model

| member | source | states |
|---|---|---|
| Grid.VIRange | SurfaceGenerator.h:23 | for 0 <= u < U and 0 <= v < V, `VI(u, v)` lies in [0, U * V) |
| Grid.VIDecode | SurfaceGenerator.h:23 | `VI(u, v) / V == u` and `VI(u, v) % V == v` whenever 0 <= v < V |
| Grid.VIInjective | SurfaceGenerator.h:23 | two cells of the grid share an index if and only if they are the same cell |
| Grid.VIOnto | SurfaceGenerator.h:23 | every index in [0, U * V) is `VI` of the cell (i / V, i % V), a cell of the grid |
| Grid.CDiv | SurfaceGenerator.h:48 | C++ `int` division by a positive n: quotient times n plus the C++ remainder gives back a, and the quotient keeps the dividend's sign |
| Grid.CRem | SurfaceGenerator.cpp:81 | C++ `%` by a positive n: in [0, n) for a non-negative dividend, in (-n, 0] for a negative one |
| Grid.Next | SurfaceGenerator.cpp:81 | the wrapped neighbour of a cell on an axis of n cells is again a cell of that axis |
| Grid.NextIsRemainder | SurfaceGenerator.cpp:81 | `(x + 1) % n` is the next cell, or 0 after the last one |
| Grid.SweepRange | SurfaceGenerator.cpp:42-43 | the number of quads `u < n - 1 + close` walks is never negative and never more than n |
| Grid.SweepValue | SurfaceGenerator.cpp:42-43 | a non-empty closed axis has n quads, an open one n - 1, an empty axis none |
| Geometry.Div | SurfaceGenerator.cpp:55 | `v /= d` gives the vector that, multiplied by d component-wise, is v again |
| Geometry.NormalProperties | SurfaceGenerator.cpp:84 | the face normal is perpendicular to both edges from the first corner, is zero for a triangle with two equal corners and points along z for a triangle in a plane z = const |
| Tessellation.QuadCorners | SurfaceGenerator.cpp:81-82 | the four corners `i[4]` of quad (u, v) are cells of the grid, with the last row and column wrapping to 0 |
| Tessellation.HalfQuadsSplitQuad | SurfaceGenerator.cpp:77-83 | half h takes corners 0, 1 + h, 2 + h of the quad, all inside the grid, and both halves share the diagonal from corner 0 to corner 2 |
| Tessellation.RowTrianglesLength | SurfaceGenerator.cpp:43-47 | one row of n quads yields 2 n triangles |
| Tessellation.GridTrianglesLength | SurfaceGenerator.cpp:42-47 | m rows of n quads yield 2 m n triangles |
| Tessellation.TriangulationLength | SurfaceGenerator.cpp:40-48 | the triangulation has 2 (U - 1 + closeU)(V - 1 + closeV) triangles, with a count clamped at zero when an axis is empty |
| Tessellation.RowTrianglesWithinGrid | SurfaceGenerator.cpp:81-83 | every corner of every triangle of a row is a cell of the grid |
| Tessellation.GridTrianglesWithinGrid | SurfaceGenerator.cpp:81-83 | every corner of every triangle of the first m rows is a cell of the grid |
| Tessellation.TriangulationWithinGrid | SurfaceGenerator.cpp:40-48 | whatever the counts and flags, every corner of every emitted triangle is a cell of the grid, so every index the passes use is in bounds |
| Tessellation.RowsOfNoQuads | SurfaceGenerator.cpp:42-43 | with no quad per row no triangle is emitted |
| Tessellation.RowTrianglesAt | SurfaceGenerator.cpp:43-47 | quad (u, v) yields triangles 2v and 2v + 1 of its row, half 0 first |
| Tessellation.GridTrianglesAt | SurfaceGenerator.cpp:42-47 | quad (u, v) yields triangles 2(u n + v) and 2(u n + v) + 1: every quad is visited once, row by row |
| Tessellation.SampleRow | SurfaceGenerator.cpp:33-37 | one row of samples has one entry per column |
| Tessellation.SampleRowAt | SurfaceGenerator.cpp:33-37 | entry v of row u is the position `F(UV(u, v))` of cell (u, v) |
| Tessellation.SampleRowsLength | SurfaceGenerator.cpp:32-37 | m rows of V samples have m V entries |
| Tessellation.SampleRowsAt | SurfaceGenerator.cpp:30-38 | after all U rows, index `VI(u, v)` holds the position of cell (u, v) |
| Tessellation.SampleRowsGrid | SurfaceGenerator.cpp:30-38 | the samples taken row after row have exactly U * V entries and every cell holds its own position |
| Tessellation.SampledGridAt | SurfaceGenerator.cpp:83 | reading `_uvVertex[VI(u, v)]` of a sampled grid is in bounds and yields the position of cell (u, v) |
| Tessellation.SampleStep | SurfaceGenerator.cpp:35-36 | writing cell (u, v) after the cells before it extends the written prefix by exactly that cell's position |
| Tessellation.Positions | SurfaceGenerator.cpp:86-88 | three positions are pushed per triangle |
| Tessellation.UVs | SurfaceGenerator.cpp:90-98 | three UVs are pushed per triangle |
| Tessellation.FlatNormals | SurfaceGenerator.cpp:124-126 | three normals are pushed per triangle |
| Tessellation.CellNormals | SurfaceGenerator.cpp:111-113 | three stored normals are pushed per triangle |
| Tessellation.PositionsAppend | SurfaceGenerator.cpp:86-88 | pushing the positions of two runs of triangles in turn pushes those of the whole run |
| Tessellation.UVsAppend | SurfaceGenerator.cpp:90-98 | the same for the UVs |
| Tessellation.FlatNormalsAppend | SurfaceGenerator.cpp:124-126 | the same for the flat normals |
| Tessellation.CellNormalsAppend | SurfaceGenerator.cpp:111-113 | the same for the smooth normals |
| Tessellation.VertexAt | SurfaceGenerator.cpp:82-98 | vertex k of every stream stems from corner k % 3 of triangle k / 3: its position and UV are that cell's and its flat normal is the triangle's face normal |
| Tessellation.CellNormalAt | SurfaceGenerator.cpp:109-113 | the smooth normal pushed as vertex k is the stored normal at the in-range index of the cell of corner k % 3 of triangle k / 3 |
| Tessellation.PositionIsImageOfUV | SurfaceGenerator.cpp:82-98 | positions and UVs stay in one-to-one correspondence: the position pushed as vertex k is `F` of the UV pushed as vertex k |
| Tessellation.FlatNormalsOfTriangle | SurfaceGenerator.cpp:116-127 | the three flat normals of every triangle are one vector, perpendicular to the triangle's edges as pushed into `_triangles` |
| Accumulators.AddAt | SurfaceGenerator.cpp:100-102 | `acc[i] += n` keeps the length of the accumulator |
| Accumulators.IncAt | SurfaceGenerator.cpp:100-102 | `++cnt[i]` keeps the length of the counts |
| Accumulators.AddToCorners | SurfaceGenerator.cpp:100-102 | the three `+=` of one triangle keep the length of `_uvNormal` |
| Accumulators.CountCorners | SurfaceGenerator.cpp:100-102 | the three `++` of one triangle keep the length of `_divideCount` |
| Accumulators.AddToCornersAt | SurfaceGenerator.cpp:100-102 | after the three `+=` of one triangle, the entry of cell x gained the face normal once per corner at x and nothing else |
| Accumulators.CountCornersAt | SurfaceGenerator.cpp:100-102 | after the three `++` of one triangle, the count of cell x grew by the number of its corners at x |
| Accumulators.Sums | SurfaceGenerator.cpp:100-102 | accumulating normals keeps the length of `_uvNormal` |
| Accumulators.Counts | SurfaceGenerator.cpp:100-102 | counting corners keeps the length of `_divideCount` |
| Accumulators.EmitTrianglesStreams | SurfaceGenerator.cpp:40-48 | emitting the triangles one `halfQuadVertex` at a time appends their positions and UVs, accumulates their face normals per cell and counts their corners per cell |
| Accumulators.SumsAt | SurfaceGenerator.cpp:100-102 | the accumulated normal of cell x is its initial value plus the face normal of every emitted triangle, once per corner at x |
| Accumulators.CountsAt | SurfaceGenerator.cpp:100-102 | the count of cell x is its initial count plus the number of emitted triangle corners at x |
| Accumulators.Averages | SurfaceGenerator.cpp:54-55 | dividing every entry by its nonzero count keeps the length, and each result times its count gives back the accumulated sum |
| Accumulators.IncidenceAppend | SurfaceGenerator.cpp:100-102 | the corner count of a cell over two runs of triangles is the sum of the counts over each |
| Accumulators.UniformNormalSum | SurfaceGenerator.cpp:100-102 | when every triangle touching x has face normal n, the accumulated normal of x is n times the count of x |
| Accumulators.AverageOfCopies | SurfaceGenerator.cpp:55 | dividing k copies of n by k yields n |
| Accumulators.UniformNormalAverage | SurfaceGenerator.cpp:54-55 | on a flat neighbourhood the smooth normal of a cell is the common face normal |
| Accumulators.AxisSumStep | SurfaceGenerator.cpp:42 | adding one more quad along an axis adds its weight to the per-axis corner tally |
| Accumulators.AxisSumClosedForm | SurfaceGenerator.cpp:42-43 | the first m quads along an axis have cell a as their own corner iff a < m, and as their wrapped successor corner iff 0 < a <= m, or a = 0 when the axis is swept to its end |
| Accumulators.QuadHits | SurfaceGenerator.cpp:45-46 | the two halves of a quad count its own and far corner twice and the two others once |
| Accumulators.RowIncidence | SurfaceGenerator.cpp:43-47 | the corner count of a cell over one row of quads, from its column tallies |
| Accumulators.GridIncidence | SurfaceGenerator.cpp:42-47 | the corner count of a cell over m rows of quads, from its row and column tallies |
| Accumulators.TriangulationIncidence | SurfaceGenerator.cpp:40-48 | the final `_divideCount` of every cell, in closed form from the segment counts and the close flags |
| Accumulators.ClosedGridCountsSix | SurfaceGenerator.cpp:100-102 | with both axes closed every cell ends with count 6 |
| Accumulators.CountsWithinOneToSix | SurfaceGenerator.cpp:50-55 | every count is at most 6, and it is at least 1 iff a quad is swept along both axes, so the smooth pass never divides by zero then and the count fits a `short` |
| Generator.Resize | SurfaceGenerator.cpp:12-14 | `resize(n, d)` has n entries: the old ones first, then copies of d |
| Generator.TriangleCount | SurfaceGenerator.h:48 | the vertex count divided by 3 with C++ truncation: exact for whole triangles, and within one triangle otherwise |
| Generator.Assign | SurfaceGenerator.h:31-35 | `assign(n, vec, it)` copies `vec[0 .. n)` to the n slots from `it` on, advances `it` by exactly n and leaves every other slot unchanged |
| Generator.AddTriangles | SurfaceGenerator.cpp:22 | appending whole triangles keeps the vertex count a multiple of 3 |
| Generator.GeneratedStreams | SurfaceGenerator.cpp:21-22 | after the passes the three streams have equal lengths that are a multiple of 3, which are the asserts of `generate` |
| Generator.SurfaceGenerator.constructor | SurfaceGenerator.h:45 | the generator keeps the surface, the counts and the flags, and starts with empty vectors |
| Generator.SurfaceGenerator.GetUSegmentCount | SurfaceGenerator.h:38 | returns the stored U segment count unchanged |
| Generator.SurfaceGenerator.GetVSegmentCount | SurfaceGenerator.h:39 | returns the stored V segment count unchanged |
| Generator.SurfaceGenerator.GetVertexCount | SurfaceGenerator.h:47 | returns the stored vertex count |
| Generator.SurfaceGenerator.GetTriangleCount | SurfaceGenerator.h:48 | one triangle per three vertices, since no vertex is shared |
| Generator.SurfaceGenerator.Generate | SurfaceGenerator.cpp:5-28 | stores counts and flags, appends the triangulation's positions, UVs and flat normals to the streams that were there before, keeps the asserts of lines 21-22 true and leaves the per-cell vectors empty |
| Generator.SurfaceGenerator.FlatShadedPasses | SurfaceGenerator.cpp:16-22 | the three passes in order: each stream gains exactly the triangulation's entries and the streams stay parallel |
| Generator.SurfaceGenerator.GenerateUVVertex | SurfaceGenerator.cpp:30-38 | afterwards every cell (u, v) holds `F(UV(u, v))` at `VI(u, v)` and the vector has exactly U * V entries, so no other index exists to be written |
| Generator.SurfaceGenerator.UVVertexRow | SurfaceGenerator.cpp:33-37 | one pass of the inner loop extends the sampled prefix by row u |
| Generator.SurfaceGenerator.GenerateTrianglesAndUVs | SurfaceGenerator.cpp:40-48 | the positions, UVs, normal sums and counts are those of emitting the whole triangulation, triangle by triangle, onto their old contents |
| Generator.SurfaceGenerator.TrianglesAndUVsRow | SurfaceGenerator.cpp:43-47 | one pass of the inner loop emits row u of the triangulation |
| Generator.SurfaceGenerator.QuadVertices | SurfaceGenerator.cpp:45-46 | the two `halfQuadVertex` calls emit both halves of quad (u, v) |
| Generator.SurfaceGenerator.HalfQuadVertex | SurfaceGenerator.cpp:77-103 | pushes the three corner positions and UVs of half h of quad (u, v), and adds its face normal and one count to each corner's cell, every index in bounds |
| Generator.SurfaceGenerator.GenerateFlatNormals | SurfaceGenerator.cpp:65-75 | `_normals` gains the face normal of every triangle of the triangulation, three times each, in emission order |
| Generator.SurfaceGenerator.FlatNormalsRow | SurfaceGenerator.cpp:70-74 | one pass of the inner loop pushes the flat normals of row u |
| Generator.SurfaceGenerator.HalfQuadFlatNormal | SurfaceGenerator.cpp:116-127 | pushes the face normal of half h of quad (u, v) three times |
| Generator.SurfaceGenerator.GenerateSmoothNormals | SurfaceGenerator.cpp:50-63 | every accumulated normal is divided by its count, then `_normals` gains, per corner of every triangle, the averaged normal of the corner's cell |
| Generator.SurfaceGenerator.SmoothNormalsRow | SurfaceGenerator.cpp:58-62 | one pass of the inner loop pushes the smooth normals of row u |
| Generator.SurfaceGenerator.HalfQuadSmoothNormal | SurfaceGenerator.cpp:105-114 | pushes the stored normals of the three corner cells of half h of quad (u, v), every index in bounds |

## Left out

- `QVector3D::normal` normalises the cross product to unit length. That needs a square root, so `Geometry.Normal` keeps the unnormalised cross product of the edges. It has the same direction; its length differs.
- All float arithmetic (`QVector2D`, `QVector3D`, the `float` division by a count) is modelled on exact reals, so rounding is not modelled.
- The packing of the streams into `_buffer` and `_vertexCount` is not implemented in SurfaceGenerator.cpp. Only the comment and the asserts at lines 20-22 are there, so the model keeps both fields and never writes them.
- The header and the .cpp disagree:
  - SurfaceGenerator.h:9-10 declares the counts and flags `const`, and SurfaceGenerator.h:46 declares a `generate()` without arguments that returns the buffer.
  - SurfaceGenerator.h:27 and 29 declare `generateNormals` and `halfQuadNormal`.
  - SurfaceGenerator.cpp:5 defines `generate(int, int, bool, bool)`, which returns nothing and assigns those fields. The .cpp defines the flat and smooth variants instead.
  - The model follows the .cpp: the fields are mutable, `Generate` takes the four arguments, and the four normal routines of the .cpp are modelled.
- The constructor's body is not among the sources. Generator.SurfaceGenerator.constructor: assumed to store its arguments and leave every vector empty and the vertex count 0.
- The concrete surfaces are not part of this model. `UV` and `F` are arbitrary total functions, held in a `Surface` value. Being functions, they return the same result for the same arguments, as their `const` declarations promise.
- Generator.SurfaceGenerator.Generate: requires that U * V is a non-negative `int` and that neither count is `INT_MIN`. A negative size makes `resize` throw, and a larger product or `U - 1` would overflow `int`.
- Generator.SurfaceGenerator.GenerateSmoothNormals: requires every count to be nonzero. With a zero count the source divides by zero and stores infinities or NaNs, which exact reals cannot express. `generate` never calls this pass, so it is modelled on its own, from any state that has the per-cell vectors sized.
- Generator.SurfaceGenerator.HalfQuadVertex, HalfQuadFlatNormal and HalfQuadSmoothNormal: require h to be 0 or 1 (the source's `assert`) and (u, v) to be a cell of the grid. Every call in the source passes such a cell, and another cell would index out of bounds.
- `_divideCount` holds `short` values in the source and `int` values in the model. No count exceeds 6 (Accumulators.CountsWithinOneToSix), so it never overflows.
