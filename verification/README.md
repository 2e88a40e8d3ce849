# Mesh generators, OBJ remapping and the render-callback registry

This project models the core geometry of the OpenGL examples in Dafny:

- **Subdivision generators.**
  - `get_icosphere_primitive` starts from an icosahedron and splits every triangle into four at each level. A per-pass midpoint cache gives every distinct edge exactly one new vertex.
  - `get_simplex_disk_primitive` does the same to a hexagon fan. It then pushes each vertex that lies off the three spokes outwards, using the sign-bit case table.
  - `get_subdivide_circles` doubles a regular triangle's points once per level.
- **Compositions built on the circle.** These are the disk fan, the circle line loop, the polygon cone and the capped cylinder.
- **Fixed tables.** These are the cube, the plane and the cube wireframe.
- **`load_obj_file` remapping.**
  - A parsed OBJ file's corners become one output vertex per distinct file vertex, created at its first occurrence, plus one index per corner.
  - Face normals are accumulated into each triangle's corners and then normalised.
  - The 10-objloader copy always accumulates. The 12-imgui copy accumulates and normalises only when the file has no normals of its own.
  - A file that fails to parse yields no meshes.
- **The window's render-callback registry.**
  - A program-wide counter hands out handles.
  - The callbacks sit in a `std::map` that each frame visits in ascending handle order.
  - Callbacks can be removed again by handle.

The vertex count of the icosphere is proved by counting edges. Over a list of triangles with distinct corners, no two alike, a pass appends one vertex per distinct edge. Its new edges are the two halves of every old edge plus three sides per middle child, and no two of these coincide. So E edges over T triangles become 2E + 3T edges. The icosahedron starts with 12 vertices, 30 edges and 20 triangles, and every pass keeps the list proper. Level k therefore has 10 * 4^k + 2 vertices. The simplex disk's hexagon starts with 7 vertices, 12 edges and 6 triangles, so its level k has 3 * 4^k + 3 * 2^k + 1 vertices.

The code is modelled in the form it has:

- The loops that build vertex and index lists are methods with `while`/`for` loops. Each is proved against a specification function or predicate on the lists:
  - `Remap`, `Collected` and `Loaded` for the loader;
  - `ChildrenOf`, `CacheInv` and `EdgesOf` for a subdivision pass;
  - `CirclePoints` for the circle;
  - `SideWall` and `CapFans` for the cylinder.
- The registry is a `class` with a `map` field and `modifies` clauses. The shared `static int` counter is a class of its own, shared by reference.
- The fixed tables are constants. Lemmas work out the winding of each of their triangles.

Positions are abstracted where only their identity matters:

- **Subdivision.** A vertex of a subdivided mesh is a symbolic term: `Base(k)` for the base shape's k-th vertex, and `Mid(a, b)` for the midpoint the generator computes. This keeps the combinatorics exact without floating point.
- **Circle-based meshes.** Positions are circle points at a height, or points on the axis.
- **Cube and plane.** Coordinates are exact integers. The cube's coordinates are doubled.
- **Loader and simplex-disk reprojection.** These use exact reals.

On winding: the generators' own comments say their triangles are listed "in counter-clockwise order" (src/11-imgui/base/primitive.cpp:99 and 212). The cube's ±Z faces follow that order too. The model follows the code's tables as written. Where a table breaks that order, the model records a finding and gives the corrected table next to the original.

## Model

| member | source | states |
|---|---|---|
| EdgeKeys.EdgeOf | src/11-imgui/base/primitive.cpp:37-38 | the cache key is the unordered pair in canonical order: `lo <= hi` and `{lo, hi}` is `{i0, i1}` |
| EdgeKeys.ShiftOrIsSum | src/11-imgui/base/primitive.cpp:37-38 | for 32-bit halves, `(lo << 32) \| hi` on 64 bits equals `lo * 2^32 + hi` |
| EdgeKeys.PackedKey | src/11-imgui/base/primitive.cpp:37-38 | the packed key of two 32-bit indices fits in 64 bits |
| EdgeKeys.PackedKeySymmetric | src/11-imgui/base/primitive.cpp:37-38 | both the packed key and the canonical edge ignore the order of the two indices |
| EdgeKeys.PackedKeyIdentifiesEdge | src/11-imgui/base/primitive.cpp:37-38 | two packed keys are equal if and only if they name the same unordered edge, so the canonical `Edge` can stand for the 64-bit key |
| Subdivision.Children | src/11-imgui/base/primitive.cpp:57-68 | a parent triangle emits exactly 12 indices (four child triangles) |
| Subdivision.LayoutsAgree | src/10-objloader/objloader.cpp:454-470 | the simplex-disk child layout and the icosphere one (primitive.cpp:57-68) emit the same four children (i0,a,c), (i1,b,a), (i2,c,b), (a,b,c) with the same orientation, each started at a possibly different corner |
| Subdivision.GetMidpointIndex | src/11-imgui/base/primitive.cpp:36-49 | hit: the stored index, nothing appended; miss: the midpoint of the two previous-level vertices is appended and its index is the old size; either way the edge ends up cached and the cache invariant holds (every cached edge owns one distinct appended vertex, its midpoint, and the previous level stays a prefix) |
| Subdivision.CacheInvAppend | src/11-imgui/base/primitive.cpp:43-47 | appending the midpoint of an uncached edge and caching its index keeps the cache invariant |
| Subdivision.TriangleMidpoints | src/11-imgui/base/primitive.cpp:54-56 | after the three lookups the cache holds exactly the old edges plus the triangle's three, earlier entries are unchanged, and a, b, c are the cached midpoints of (i0,i1), (i1,i2), (i2,i0) |
| Subdivision.EmitChildren | src/11-imgui/base/primitive.cpp:50-68 | one parent triangle: the cache gains exactly its edges and the emitted 12 indices are its children under the cache, all valid |
| Subdivision.ChildrenOfStable | src/11-imgui/base/primitive.cpp:50-69 | a triangle's children do not change when later triangles extend the cache |
| Subdivision.SubdivideTriangles | src/11-imgui/base/primitive.cpp:50-69 | the triangle loop: the cache holds exactly the distinct edges of all parents, block t of the output is parent t's children, the output has 4x the indices, all valid, and the cache invariant holds |
| Subdivision.SubdividePass | src/11-imgui/base/primitive.cpp:33-71 | one level is a pass: the returned cache maps exactly the parents' distinct edges, each to one appended vertex that is its midpoint; the old vertices stay a prefix; block t of the new indices is parent t's four children; all indices stay valid |
| Subdivision.NextLevel | src/11-imgui/base/primitive.cpp:32-73 | one iteration of a generator's outer loop extends the chain of passes by one level, keeping its first level, and the new level is the returned mesh |
| Icosphere.IcosahedronWellFormed | src/11-imgui/base/primitive.cpp:19-31 | the base shape has 12 vertices and 20 whole triangles with valid indices |
| EdgeCount.ImageSize | src/11-imgui/base/primitive.cpp:35-48 | a one-to-one map keeps the size of the set it is applied to (the cache gives each distinct edge its own new index) |
| EdgeCount.EdgesOfMember | src/11-imgui/base/primitive.cpp:50-56 | an edge is among the distinct edges of the first n triangles if and only if it is a side of one of them |
| EdgeCount.KeyProper | src/11-imgui/base/primitive.cpp:50-56 | in a list of triangles with distinct corners, every edge joins two different vertices and is a side of some triangle |
| EdgeCount.ChildBlock | src/11-imgui/base/primitive.cpp:57-68 | in either layout the four children have the corner sets {i0,a,c}, {i1,b,a}, {i2,c,b}, {a,b,c}, and each has distinct corners when its three values differ |
| EdgeCount.ChildBlockEdges | src/11-imgui/base/primitive.cpp:57-68 | in either layout the four children have the sides (i0,a), (a,c), (c,i0); (i1,b), (b,a), (a,i1); (i2,c), (c,b), (b,i2); (a,b), (b,c), (c,a) |
| EdgeCount.PassEdges | src/11-imgui/base/primitive.cpp:33-71 | after a pass, the distinct edges are exactly the two halves of every old edge plus the sides of the middle children |
| EdgeCount.HalvesSize | src/11-imgui/base/primitive.cpp:43-47 | the old edges' halves are all different: twice as many as there are cached edges |
| EdgeCount.InnerSize | src/11-imgui/base/primitive.cpp:66-68 | the middle children have one distinct side per old index: no two of their sides coincide |
| EdgeCount.InnerInjective | src/11-imgui/base/primitive.cpp:54-68 | two sides of middle children are equal only when they are the same side of the same parent |
| EdgeCount.HalvesNotInner | src/11-imgui/base/primitive.cpp:43-68 | no half of an old edge is a side of a middle child: a half has an old vertex, a middle side has none |
| EdgeCount.PassEdgeCount | src/11-imgui/base/primitive.cpp:33-71 | a pass turns E distinct edges over T triangles into 2E + 3T distinct edges |
| EdgeCount.ChildInjective | src/11-imgui/base/primitive.cpp:50-69 | over a proper parent list, no two children have the same corners |
| EdgeCount.PassProper | src/11-imgui/base/primitive.cpp:33-71 | a pass over triangles with distinct corners, no two alike, yields triangles with the same property |
| EdgeCount.PassStep | src/11-imgui/base/primitive.cpp:33-71 | over a proper list with valid indices, a pass keeps both; it appends one vertex per distinct old edge, gives 2E + 3T edges and four times the indices |
| EdgeCount.SoundStep | src/11-imgui/base/primitive.cpp:33-73 | a pass over a proper mesh with valid indices yields one again |
| EdgeCount.ChainProper | src/11-imgui/base/primitive.cpp:32-73 | every level of a chain of passes that starts proper with valid indices is proper with valid indices |
| EdgeCount.ChainCounts | src/11-imgui/base/primitive.cpp:32-73 | from level k to level k+1 of such a chain: vertices grow by the number of distinct edges, edges become 2E + 3T, indices quadruple |
| EdgeCount.SameCornersSameKey | src/11-imgui/base/primitive.cpp:27-31 | triangles with the same corners have the same corner key |
| Icosphere.IcosahedronEdgeSet | src/11-imgui/base/primitive.cpp:27-31 | the 20 faces have exactly the 30 listed edges |
| Icosphere.IcosahedronEdgeCount | src/11-imgui/base/primitive.cpp:27-31 | the 30 listed edges are all different |
| Icosphere.IcosahedronProper | src/11-imgui/base/primitive.cpp:27-31 | every face has three distinct corners and no two faces have the same corners |
| Icosphere.IcosahedronSound | src/11-imgui/base/primitive.cpp:19-31 | the icosahedron is proper, its indices are valid, and it has 30 distinct edges |
| Icosphere.IcosphereCounts | src/11-imgui/base/primitive.cpp:32-73 | level k of a chain of passes from the icosahedron has 10 * 4^k + 2 vertices, 30 * 4^k distinct edges and 60 * 4^k indices |
| Icosphere.IcospherePrimitive | src/11-imgui/base/primitive.cpp:16-90 | the result is well formed, has 60 * 4^max(level,0) indices and 10 * 4^max(level,0) + 2 vertices (one per corner of the icosahedron and one per distinct edge of every level), and keeps the 12 icosahedron corners at indices 0..11; it is the last level of a chain of max(level,0) passes that starts at the icosahedron; a level of zero or less returns the icosahedron itself |
| SimplexDisk.HexagonFan | src/10-objloader/objloader.cpp:416-420 | the base shape has 7 vertices and 18 indices, and triangle k is the fan triangle (0, k+1, (k+1) mod 6 + 1) |
| SimplexDisk.HexagonEdgeCount | src/10-objloader/objloader.cpp:419-420 | the six spokes and six rim edges of the hexagon are 12 different edges |
| SimplexDisk.HexagonSides | src/10-objloader/objloader.cpp:419-420 | the sides of fan triangle t are spoke t, spoke t+1 mod 6 and rim edge t |
| SimplexDisk.HexagonFaceListed | src/10-objloader/objloader.cpp:419-420 | every side of a fan triangle is one of the 12 listed edges |
| SimplexDisk.HexagonEdgeFound | src/10-objloader/objloader.cpp:419-420 | every listed edge is a side of some fan triangle |
| SimplexDisk.HexagonEdgeSet | src/10-objloader/objloader.cpp:419-420 | the six fan triangles have exactly the 12 listed edges |
| SimplexDisk.HexagonCorners | src/10-objloader/objloader.cpp:419-420 | fan triangle t has the three different corners 0, t+1 and (t+1) mod 6 + 1 |
| SimplexDisk.HexagonRimCorner | src/10-objloader/objloader.cpp:419-420 | a rim vertex is a corner of fan triangle t if and only if it is t+1 or the next one round |
| SimplexDisk.HexagonApart | src/10-objloader/objloader.cpp:419-420 | two different fan triangles never have the same corners |
| SimplexDisk.HexagonProper | src/10-objloader/objloader.cpp:419-420 | every fan triangle has three distinct corners and no two have the same corners |
| SimplexDisk.HexagonSound | src/10-objloader/objloader.cpp:416-420 | the hexagon is proper, its indices are valid, and it has 12 distinct edges |
| SimplexDisk.HexagonCounts | src/10-objloader/objloader.cpp:422-475 | level k of a chain of passes from the hexagon has 3 * 4^k + 3 * 2^k + 1 vertices, 9 * 4^k + 3 * 2^k distinct edges and 18 * 4^k indices |
| SimplexDisk.SubdivideHexagon | src/10-objloader/objloader.cpp:422-475 | the mesh is the last level of a chain of max(level,0) passes that starts at the hexagon; it is well formed with 18 * 4^passes indices and 3 * 4^passes + 3 * 2^passes + 1 vertices, and keeps the hexagon's 7 vertices as a prefix; level <= 0 leaves the hexagon unchanged |
| SimplexDisk.Distances | src/10-objloader/objloader.cpp:488-500 | the array `k` has four entries, ends with the sentinel -1, and k0 + k1 + k2 = 0 |
| SimplexDisk.SignBit | src/10-objloader/objloader.cpp:491-493 | the sign bit is 0 or 1, and 1 exactly for negative values |
| SimplexDisk.CaseId | src/10-objloader/objloader.cpp:491-493 | `case_id` is below 8, and its three bits are the sign bits of k0, k1, k2 |
| SimplexDisk.CaseMapInBounds | src/10-objloader/objloader.cpp:494-507 | `case_map[case_id]` is in range and indexes one of the four entries of `k` |
| SimplexDisk.SelectionIsOddOneOut | src/10-objloader/objloader.cpp:502-508 | for a vertex that is moved, the entry picked is never the sentinel; it is the one whose sign differs from the other two, its magnitude is the largest of the three, and the scale factor is that magnitude, which is positive |
| SimplexDisk.KeptOnSpokes | src/10-objloader/objloader.cpp:502-505 | a vertex is left in place if and only if one of its three distances is within 1e-9 of zero |
| SimplexDisk.AxisPointsKept | src/10-objloader/objloader.cpp:502-505 | the centre, and every point on the x axis, is never moved |
| SimplexDisk.AdjustVertices | src/10-objloader/objloader.cpp:481-516 | the conversion loop adjusts every vertex, in order, by the per-vertex rule |
| SimplexDisk.SimplexDiskPrimitive | src/10-objloader/objloader.cpp:407-522 | the last level of the hexagon's chain of passes, with every vertex adjusted and the indices unchanged: well formed, 18 * 4^passes indices, 3 * 4^passes + 3 * 2^passes + 1 vertices, the hexagon as a prefix of the positions |
| Circle.InterleaveAt | src/11-imgui/base/primitive.cpp:217-225 | after a pass, old point j sits at 2j and the midpoint of j and its cyclic successor at 2j+1; the list doubles |
| Circle.CirclePass | src/11-imgui/base/primitive.cpp:216-226 | the inner loop builds exactly the interleaving of the old points with their midpoints |
| Circle.SubdivideCircles | src/11-imgui/base/primitive.cpp:208-230 | the result is the point list after max(level,0) passes; level <= 0 gives the triangle |
| Circle.CircleSize | src/11-imgui/base/primitive.cpp:213-228 | after n passes there are 3 * 2^n points |
| Circle.CircleKeepsCorners | src/11-imgui/base/primitive.cpp:213-228 | the triangle's three corners are never moved: after n passes they sit at 0, 2^n and 2 * 2^n |
| Circle.NewPointBetweenNeighbours | src/11-imgui/base/primitive.cpp:217-225 | every point a pass adds is the midpoint of its two neighbours on the new list, cyclically |
| Solids.Lift | src/11-imgui/base/primitive.cpp:350-351 | adding (0,0,dz) raises the height by dz and keeps a rim point on its circle point and an axis point on the axis |
| Solids.DiskPrimitive | src/11-imgui/base/primitive.cpp:232-257 | n+1 vertices: rim vertex i is circle point i at z = 0 facing +z, the centre is last, at index n; triangle i is the fan triangle (n, i, (i+1) mod n) |
| Solids.CircleLoopPrimitive | src/11-imgui/base/primitive.cpp:259-275 | one vertex per circle point, in order, at z = 0 facing +z |
| Solids.ConeStep | src/11-imgui/base/primitive.cpp:291-305 | appending one rim edge's five vertices and six indices keeps the earlier triangles and adds its slope facet and bottom triangle |
| Solids.ConePrimitive | src/11-imgui/base/primitive.cpp:277-312 | 1 + 5n vertices and 6n indices; triangle 2i is the slope facet over rim edge (i, i+1 mod n) with its own flat normal, and triangle 2i+1 the bottom triangle joining the edge to the shared centre, facing -z |
| Solids.CylinderSide | src/11-imgui/base/primitive.cpp:321-345 | the side wall: circle point i gives vertices 2i (z=-1) and 2i+1 (z=1) with the radial normal, and rim edge (i, j) the quad triangles (2i, 2j, 2j+1) and (2i, 2j+1, 2i+1) |
| Solids.SideStep | src/11-imgui/base/primitive.cpp:337-344 | appending one quad's six indices keeps the earlier triangles and adds the quad's two |
| Solids.AppendCap | src/11-imgui/base/primitive.cpp:349-356 | a cap is the disk's vertices shifted by dz with normal (0,0,dz), and the disk's indices shifted by the old vertex count; everything before is kept |
| Solids.AppendCaps | src/11-imgui/base/primitive.cpp:347-365 | after both caps there are 4n+2 vertices and 12n indices; top rim vertex 2n+i is circle point i at z = 1 facing +z, bottom rim vertex 3n+1+i the same point at z = -1 facing -z; the top centre is at 3n, the bottom centre at 4n+1, and triangle slots 2n..4n hold the two fans |
| Solids.CapVertices | src/11-imgui/base/primitive.cpp:349-352 | after the copy, rim vertex offset+i is circle point i at height dz and the centre offset+n is on the axis at height dz, all facing (0,0,dz) |
| Solids.CapTriangles | src/11-imgui/base/primitive.cpp:352-354 | the copied fan's triangles are the disk's fan triangles, shifted by the offset |
| Solids.CylinderPrimitive | src/11-imgui/base/primitive.cpp:314-371 | the side wall over the circle, then the top cap (rim 2n..3n at z = 1, centre 3n) and the bottom cap (rim 3n+1..4n+1 at z = -1, centre 4n+1), each rim vertex i being circle point i: 4n+2 vertices, 12n indices, all valid |
| Tables.ReversedFacing | src/11-imgui/base/primitive.cpp:375-386 | swapping two corners of a triangle negates how it faces its normal |
| Tables.FlippedFacing | src/11-imgui/base/primitive.cpp:375-386 | over the same vertices, a flipped triangle faces the opposite way |
| Tables.CubePrimitive | src/11-imgui/base/primitive.cpp:373-425 | the cube as written has 24 vertices and 12 whole triangles with valid indices |
| Tables.CubePlusX | src/11-imgui/base/primitive.cpp:375-392 | both +X triangles face their normal with -4: clockwise |
| Tables.CubeMinusX | src/11-imgui/base/primitive.cpp:377-398 | both -X triangles face with -4: clockwise |
| Tables.CubePlusY | src/11-imgui/base/primitive.cpp:379-404 | both +Y triangles face with -4: clockwise |
| Tables.CubeMinusY | src/11-imgui/base/primitive.cpp:381-410 | both -Y triangles face with -4: clockwise |
| Tables.CubePlusZ | src/11-imgui/base/primitive.cpp:383-416 | both +Z triangles face with +4: counter-clockwise |
| Tables.CubeMinusZ | src/11-imgui/base/primitive.cpp:385-422 | both -Z triangles face with +4: counter-clockwise |
| Tables.CubeSidesWoundClockwise | src/11-imgui/base/primitive.cpp:373-425 | as written, the eight side triangles run clockwise around their normals and the four ±Z triangles counter-clockwise |
| Tables.CorrectedCubePrimitive | src/11-imgui/base/primitive.cpp:373-425 | the corrected cube keeps the vertex table and has 12 whole triangles with valid indices |
| Tables.CorrectedCubeTriangles | src/11-imgui/base/primitive.cpp:375-386 | the corrected table flips exactly the eight side triangles and keeps the four ±Z ones |
| Tables.CorrectedCubeFrontFacing | src/11-imgui/base/primitive.cpp:373-425 | every triangle of the corrected cube runs counter-clockwise around its normal |
| Tables.PlanePrimitive | src/11-imgui/base/primitive.cpp:427-441 | the plane has 4 vertices and 2 whole triangles with valid indices |
| Tables.PlaneTriangles | src/11-imgui/base/primitive.cpp:429-439 | each of the plane's two triangles faces its +y normal with -4 |
| Tables.PlaneWoundClockwise | src/11-imgui/base/primitive.cpp:429-439 | as written, both triangles of the plane run clockwise seen from +y |
| Tables.CorrectedPlanePrimitive | src/11-imgui/base/primitive.cpp:427-441 | the corrected plane keeps the vertex table and has 2 whole triangles |
| Tables.CorrectedPlaneTriangles | src/11-imgui/base/primitive.cpp:429 | the corrected table flips both triangles |
| Tables.CorrectedPlaneFrontFacing | src/11-imgui/base/primitive.cpp:427-441 | both triangles of the corrected plane run counter-clockwise around +y |
| Tables.WireSegment | src/11-imgui/base/primitive.cpp:444-460 | segment k joins two of the 8 corners that differ in exactly one coordinate |
| Tables.WireframeIsCubeEdges | src/11-imgui/base/primitive.cpp:443-466 | 12 segments over 8 corners, each a cube edge, no two the same: exactly the cube's 12 edges |
| ObjLoader.Remap | src/10-objloader/objloader.cpp:122-157 | one output index per corner, pointing at an output vertex made from that corner's file vertex; every output vertex is first named by some corner |
| ObjLoader.RemapPrefix | src/10-objloader/objloader.cpp:122-157 | remapping a prefix of the corners gives a prefix of every part of the result: the lists only grow |
| ObjLoader.RemapDistinct | src/10-objloader/objloader.cpp:127-151 | no file vertex gets two output vertices |
| ObjLoader.RemapCorner | src/10-objloader/objloader.cpp:127-156 | a corner whose file vertex is new gets the index equal to the current vertex count, and that vertex comes from this corner; a seen one reuses the index already stored |
| ObjLoader.RemapExtend | src/10-objloader/objloader.cpp:127-156 | one more corner either appends one vertex and its index, or appends only the reused index |
| ObjLoader.RemapCovers | src/10-objloader/objloader.cpp:127-151 | a file vertex gets an output vertex if and only if some corner names it |
| ObjLoader.Points | src/10-objloader/objloader.cpp:130-134 | the position of output vertex j is the file position of its first corner |
| ObjLoader.NotACorner | src/10-objloader/objloader.cpp:164-166 | a face adds nothing to a vertex that is not one of its corners |
| ObjLoader.OnceACorner | src/10-objloader/objloader.cpp:164-166 | a face with three distinct corners adds its normal to each exactly once |
| ObjLoader.AccumulatedIsSum | src/10-objloader/objloader.cpp:158-167 | after the face loop, a vertex's normal is its starting normal plus the sum of the face normals of the faces around it |
| ObjLoader.AccumulatedUntouched | src/10-objloader/objloader.cpp:164-166 | a vertex no face touches is unchanged |
| ObjLoader.AccumulatedKeeps | src/10-objloader/objloader.cpp:164-166 | accumulating normals never changes a position or a texture coordinate |
| ObjLoader.CollectedIsSum | src/10-objloader/objloader.cpp:127-167 | a collected vertex has its first corner's position and texcoord, and as normal that corner's file normal (zero without one) plus its faces' normals |
| ObjLoader.FirstMet | src/10-objloader/objloader.cpp:127-151 | the vertex created at a file vertex's first occurrence is the one the remapping assigns it, and no earlier corner uses its index |
| ObjLoader.BuiltNew | src/10-objloader/objloader.cpp:127-151 | the new-vertex branch keeps the loop invariant: `vertex_map` matches the remapping and the lists are its prefix |
| ObjLoader.BuiltReuse | src/10-objloader/objloader.cpp:152-156 | the reuse branch keeps the loop invariant |
| ObjLoader.AddCorner | src/10-objloader/objloader.cpp:125-156 | one corner of the inner loop advances the loop state by exactly one corner |
| ObjLoader.WithFaceNormalAt | src/10-objloader/objloader.cpp:164-166 | after adding a face normal, each vertex gains it once per time it appears among the triangle's corners |
| ObjLoader.AddFaceNormal | src/10-objloader/objloader.cpp:164-166 | the `+=` loop: vertices that are not corners are unchanged, and for distinct corners each corner's normal gains the face normal |
| ObjLoader.FaceRead | src/10-objloader/objloader.cpp:159-163 | the three positions read through the new indices are the face's file positions, so the computed face normal is the face's |
| ObjLoader.AccumulateFaceNormal | src/10-objloader/objloader.cpp:159-166 | computing the cross product of the corner positions and adding it to the three corners |
| ObjLoader.FaceAccumulated | src/10-objloader/objloader.cpp:158-166 | after a face's normal is added, every vertex is collected over one more face |
| ObjLoader.ReadFace | src/10-objloader/objloader.cpp:125-157 | the inner corner loop reads one whole face |
| ObjLoader.AddFace | src/10-objloader/objloader.cpp:121-167 | one face: its three corners are read and, when normals are computed, its face normal is accumulated |
| ObjLoader.BuiltDone | src/10-objloader/objloader.cpp:121-168 | when all faces are read, the indices are the remapping's and every vertex is fully collected |
| ObjLoader.NormalizeAll | src/10-objloader/objloader.cpp:170-172 | every vertex's normal is replaced by its normalised value, with nothing else changed |
| ObjLoader.CollectShape | src/10-objloader/objloader.cpp:117-168 | the face loop of one shape: the indices are the remapping's, and each vertex is its first corner's with its faces' normals summed in |
| ObjLoader.LoadedWellFormed | src/10-objloader/objloader.cpp:121-157 | a loaded mesh has one index per corner, and every index is below the vertex count |
| ObjLoader.LoadShape | src/10-objloader/objloader.cpp:115-173 | one shape's mesh is the loaded mesh of its corners, and it is well formed |
| ObjLoader.LoadShapes | src/10-objloader/objloader.cpp:115-174 | one mesh per shape, in order, each the loaded mesh of that shape |
| ObjLoader.LoadObjFileAlwaysAccumulating | src/10-objloader/objloader.cpp:92-177 | a failed parse gives no meshes; otherwise one mesh per shape, with face normals always accumulated and normalised |
| ObjLoader.LoadObjFile | src/12-imgui/mesh.cpp:62-151 | a failed parse gives no meshes; otherwise one mesh per shape, with face normals accumulated and normalised exactly when the file has no normals |
| ObjNormals.ComputedNormals | src/12-imgui/mesh.cpp:127-146 | for a file without normals, every vertex gets the normalised sum of the normals of the faces around it |
| ObjNormals.FirstCorner | src/12-imgui/mesh.cpp:94-125 | the first corner naming the same file vertex as corner i |
| ObjNormals.FirstCornerBefore | src/12-imgui/mesh.cpp:96-125 | the corner an output vertex comes from is the first to name its file vertex |
| ObjNormals.FileNormalsKept | src/12-imgui/mesh.cpp:96-146 | for a file with normals, every corner draws the vertex built from the first corner naming its file vertex, with that corner's file normal untouched |
| ObjNormals.CollectedTriangleNormal | src/10-objloader/objloader.cpp:158-166 | in the one-triangle file, the first vertex's accumulated normal is its file normal (1,0,0) plus the face normal (0,0,t) |
| ObjNormals.AccumulatingOverridesFileNormal | src/10-objloader/objloader.cpp:135-172 | as written, a vertex whose file normal is (1,0,0) leaves the loader with a normal that has a non-zero z component |
| ObjNormals.GuardKeepsFileNormal | src/12-imgui/mesh.cpp:127-146 | with the `normals.empty()` guard, every vertex of the same file keeps its file normal exactly |
| RenderRegistry.HandleCounter.constructor | src/11-imgui/window.cpp:28 | the program-wide counter starts at 0 |
| RenderRegistry.AscendingIsSorted | src/imgui-demo/base/window.h:41 | the map's visiting order is strictly increasing and holds each stored handle exactly once |
| RenderRegistry.Window.constructor | src/imgui-demo/base/window.h:41 | a new window has no callbacks |
| RenderRegistry.Window.AddRenderCallback | src/11-imgui/window.cpp:27-33 | the handle is the counter's old value and the counter moves on; `emplace` stores the callback unless the handle is taken; in a valid window it never is, so the callback is added next to the unchanged old entries |
| RenderRegistry.Window.RemoveRenderCallback | src/11-imgui/window.cpp:35-43 | an unknown handle gives the empty callback and changes nothing; a known one gives back its callback and erases only its entry |
| RenderRegistry.Window.RenderFrame | src/11-imgui/window.cpp:163-165 | one frame calls every stored callback exactly once, in ascending handle order |
| RenderRegistry.Smallest | src/11-imgui/window.cpp:163 | the next handle the iteration visits is the smallest one remaining |
| RenderRegistry.AddToTwoWindows | src/11-imgui/window.cpp:28-31 | since the counter is shared, callbacks added to two windows get different, increasing handles, and both are stored |

## Left out

- Floating point. Positions, normals and the loader's arithmetic are exact, and rounding is not modelled. Subdivided and circle vertices are symbolic terms. `glm::normalize` in the loader is a function parameter, and the simplex disk's `std::sqrt(3.0)` is a real parameter `s`.
- The projection of midpoints onto the sphere or circle in the icosphere and circle generators. `Mid(a, b)` records which points are combined, not where the result lies.
- That subdivision keeps each child's orientation in space. Only the combinatorial fact is proved: the children's corner order agrees between the two layouts.
- The winding of the circle-based meshes (disk, cone, cylinder). The model fixes their index order but does not compute how it faces the normals, because their positions are symbolic. Two parts keep the top-facing order under a -z normal and are therefore likely clockwise: the cone's bottom triangles (src/11-imgui/base/primitive.cpp:300-305) and the cylinder's bottom cap (src/11-imgui/base/primitive.cpp:358-364). Both are plausible, not proved, so they are not listed as findings.
- SimplexDisk.Adjust: records the scale factor `|k[case_map[case_id]]|` of a moved vertex, not its final position `normalize(v) * factor * 2 / sqrt(3)`.
- Texture coordinates of all the generated meshes. This also covers the icosphere's `normal = pos`, the float conversions of the final vertex lists and the unused `new_status` and `vertex_idx` of the simplex disk.
- The packed 64-bit cache key. The cache is keyed by the canonical `Edge`, and EdgeKeys.PackedKeyIdentifiesEdge shows that the two are interchangeable for indices below 2^32.
- Integer widths: `uint32_t` indices, `size_t` counters and the `static int` handle counter are unbounded here, so wrap-around after 2^31 handles or 2^32 vertices is not modelled.
- tinyobj parsing and file I/O. The parse result is an `Option`, with `None` for a failed parse. The error message printed on failure is not modelled.
- The parser's guarantees are requirements of the loader: every index is in range, and every face is a triangle (the `assert(fv == 3)` after triangulation requested with earcut). `num_face_vertices` is therefore three corners per face.
- ObjNormals.AccumulatingOverridesFileNormal: assumes of `glm::normalize` only that it keeps the sign of every component (`KeepsSigns`), as a positive scaling does. A zero normal, whose normalisation is undefined, is not modelled.
- What a render callback does when it is called, and a callback that adds or removes callbacks while the frame iterates the map. The empty `RenderCallback{}` returned for an unknown handle is `None`.
- OpenGL buffers and draw calls, GLFW windows and events, ImGui, and the shader, camera and texture code.

## Findings

| source | as written | input that shows it | evidently intended | confidence | as-written member | corrected member |
|---|---|---|---|---|---|---|
| src/11-imgui/base/primitive.cpp:375-386 | the ±X and ±Y faces of the cube are indexed (b, b+1, b+2), (b, b+2, b+3), which runs clockwise around their normals, while ±Z runs counter-clockwise | the +X triangle (1,-1,-1), (1,-1,1), (1,1,1) (doubled): the edge cross product is (-4,0,0), against the normal (1,0,0) | every face counter-clockwise around its normal, as meshes are meant to be front-facing | not executed; shows only with back-face culling, and the program never enables GL_CULL_FACE | Tables.CubeSidesWoundClockwise | Tables.CorrectedCubeFrontFacing |
| src/11-imgui/base/primitive.cpp:429 | the plane's triangles (0,1,2), (0,2,3) run clockwise seen from +y, the side their normal faces | (-1,0,-1), (1,0,-1), (1,0,1): the cross product is (0,-4,0), against the normal (0,1,0) | both triangles counter-clockwise around +y | not executed; shows only with back-face culling, and the program never enables GL_CULL_FACE | Tables.PlaneWoundClockwise | Tables.CorrectedPlaneFrontFacing |
| src/10-objloader/objloader.cpp:158-172 | face normals are added to every vertex and normalised even when the file gives its own normals, so those normals are tilted by the face normals | one triangle (0,0,0), (1,0,0), (0,t,0) with t != 0 whose corners carry the file normal (1,0,0): the first vertex leaves with a normal having a non-zero z | keep the file's normals and compute face normals only when the file has none, as the guarded copy in src/12-imgui/mesh.cpp:127-146 does | not executed | ObjNormals.AccumulatingOverridesFileNormal | ObjNormals.GuardKeepsFileNormal |
