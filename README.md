# polysplit: the recursive quadrant splitter

polysplit cuts polygons and multipolygons that have too many exterior-ring
vertices into smaller polygons. The work is done by `split_polygons`. It is
given a geometry, a vertex budget `max_vertices` and a caller-owned list of
pieces, and handles the geometry as follows:

- A null geometry prints a warning and adds nothing.
- An empty geometry (any type) adds nothing.
- A geometry that is neither a polygon nor a multipolygon adds nothing.
- A multipolygon is split member by member, in index order.
- A polygon whose exterior ring has at most `max_vertices` points is appended
  as a copy.
- Any other polygon is oversized. It is first repaired with
  `Buffer(0)` if the engine finds it invalid or not simple. Its envelope is
  then cut into four quadrant boxes at its centroid. The polygon is
  intersected with a rectangular mask over each box, and the splitter
  recurses on each intersection, quadrants 0 to 3 in turn.

The model has four modules:

- `Geometry` holds the values (points, envelopes, rings, geometries) and the
  geometry engine. The engine is a record of total functions: intersection,
  buffer, validity, simplicity, centroid and envelope. It is a parameter of
  everything, so each theorem holds for every engine.
- `Quadrants` builds the quadrant boxes (`QuadrantBox`) and the closed mask
  rings (`MaskRing`, `Mask`). It proves what these boxes and rings look like.
- `Splitter` describes what one call does, as a function. `Split` returns the
  run: the pieces appended, in order, the lines written to the error stream,
  and whether the run finished. `SplitAll` covers a sequence of members.
  `QuadrantRuns` covers the first n quadrants. The lemmas state the
  splitter's promises about these functions.
- `PolySplit` is the imperative splitter. `PolyList` is the caller's piece
  vector and `ErrorStream` is standard error; both are changed in place.
  `SplitPolygons` is proved to append exactly `Split`'s pieces and to write
  exactly `Split`'s messages.

The source does everything in one function, `split_polygons`. The model
spreads it over four methods: `SplitPolygons` (the dispatch),
`SplitMembers` (the loop over multipolygon members), `SplitQuadrants`
(repair, centroid, envelope and the quadrant loop) and `QuadrantMask` (the
`bbox` switch and the five `setPoint` calls). Each method is small enough
to verify on its own.

The recursion in the source has no decreasing measure, because an
intersection need not have fewer vertices than the polygon it came from.
The model adds a `fuel` parameter that bounds how many quadrant cuts one
branch may make. When an oversized polygon is reached with no fuel left, it
adds nothing and the run is marked incomplete (`complete == false`). The
other branches go on as in the source. Recursion into multipolygon members
uses no fuel. `FuelMonotone` proves that a run which finished gives the
same result with any larger fuel, so the fuel only bounds the run and does
not change what it computes.

Two details of the code that the model follows:

- Order of quadrants. Quadrant 1 keeps the low-x, high-y corner (`MaxX` and
  `MinY` replaced), quadrant 2 the high-x, low-y corner
  (polysplit.cpp:91-92).
- Null results from the engine. A null intersection result is passed to the
  recursive call and reaches the null check at polysplit.cpp:46-48, so it
  writes the null-geometry warning and adds nothing.

`Polygon` and `Multi` stand for the two-dimensional type codes `wkbPolygon`
and `wkbMultiPolygon` only, which are the codes the dispatch compares against
(polysplit.cpp:54, 62). A polygon or multipolygon with z or measure values has
another type code, so it is an `Other` in the model: like the source, the
model drops it without a piece or a message.

## Model

| member | source | states |
|---|---|---|
| Geometry.RingEnvelope | polysplit.cpp:95-101 | The envelope of a ring contains every point of the ring and is attained on each side, so it is the smallest such box. It is the reference for the extent of the mask ring built at these lines; the engine's `getEnvelope` (lines 82-83) is a parameter and is not tied to it. |
| Quadrants.QuadrantBoxBounds | polysplit.cpp:86-94 | Each quadrant box is the envelope with two bounds replaced by the centroid's coordinates: q0 MaxX and MaxY, q1 MaxX and MinY, q2 MinX and MaxY, q3 MinX and MinY. The other two bounds are the envelope's. |
| Quadrants.QuadrantsWithinEnvelope | polysplit.cpp:86-94 | If the centroid lies in the envelope, every quadrant box is well formed, lies inside the envelope and has the centroid as a vertex: at its high x side in quadrants 0 and 1 and its low x side in 2 and 3, at its high y side in quadrants 0 and 2 and its low y side in 1 and 3. |
| Quadrants.QuadrantsCoverEnvelope | polysplit.cpp:85-94 | If the centroid lies in the envelope, every point of the envelope lies in at least one of the four quadrant boxes. |
| Quadrants.QuadrantInteriorsDisjoint | polysplit.cpp:85-94 | No point lies strictly inside two different quadrant boxes. |
| Quadrants.MaskRingShape | polysplit.cpp:95-100 | The mask ring has exactly 5 points. Points 0 to 3 are the corners (MinX,MinY), (MinX,MaxY), (MaxX,MaxY), (MaxX,MinY). Point 4 equals point 0, so the ring is closed. |
| Quadrants.MaskRingEnvelope | polysplit.cpp:95-101 | For a well-formed box, the envelope of its mask ring is exactly that box. |
| Splitter.NullInputWarns | polysplit.cpp:46-49 | A null geometry appends nothing and writes exactly the null-geometry warning. |
| Splitter.IgnoredInputsAddNothing | polysplit.cpp:51-63 | An empty geometry, or a non-null geometry that is neither a polygon nor a multipolygon, appends nothing and writes nothing. |
| Splitter.SmallPolygonIsKept | polysplit.cpp:65-69 | A non-empty polygon whose exterior ring has at most `max_vertices` points appends exactly one piece, equal to itself. It writes nothing, whatever the fuel. |
| Splitter.OversizedSplitsIntoQuadrants | polysplit.cpp:71-105 | An oversized polygon's run is the concatenation of the runs on `Intersection(mask_q, repaired polygon)` for q = 0, 1, 2, 3 in that order. Each of those runs has one unit of fuel less. |
| Splitter.SplitAllAppend | polysplit.cpp:56-58 | Splitting a concatenation of geometries gives the run of the first part followed by the run of the second. |
| Splitter.SplitAllIsMembersInOrder | polysplit.cpp:56-58 | The member loop's run equals a front-to-back fold over the members, defined independently of it. |
| Splitter.EmptyMembersAddNothing | polysplit.cpp:51-52 | Members that are all empty contribute nothing. |
| Splitter.MultiSplitsMembersInOrder | polysplit.cpp:51-60 | A multipolygon's run is its members' runs concatenated in index order 0..n-1. This includes the empty multipolygon. |
| Splitter.MultiOfTwo | polysplit.cpp:54-60 | A multipolygon of A and B yields the pieces of A followed by the pieces of B. |
| Splitter.FuelMonotone | polysplit.cpp:31-108 | A run that finished within some fuel gives the same pieces, messages and completion with any larger fuel. |
| Splitter.SplitAllFuelMonotone | polysplit.cpp:56-58 | The same for a sequence of members. |
| Splitter.QuadrantRunsFuelMonotone | polysplit.cpp:85-105 | The same for the quadrant loop. |
| Splitter.SplitIsSound | polysplit.cpp:66-67 | For any engine, every appended piece is a non-empty polygon with at most `max_vertices` exterior points. Every line `split_polygons` itself writes is the null-geometry warning. |
| Splitter.SplitAllIsSound | polysplit.cpp:56-58 | The same for a sequence of members. |
| Splitter.QuadrantRunsAreSound | polysplit.cpp:85-105 | The same for the quadrant loop. |
| Splitter.PiecesAreFixedPoints | polysplit.cpp:66-68 | Splitting any output piece again with the same budget yields exactly that piece, so splitting is idempotent on its output. |
| PolySplit.SplitPolygons | polysplit.cpp:31-108 | The list's old contents stay as a prefix. What is appended is `Split`'s pieces, and each appended piece is within budget. The error stream gains exactly `Split`'s messages, which are the lines `split_polygons` itself writes. |
| PolySplit.SplitMembers | polysplit.cpp:54-60 | The member loop appends the members' runs in index order. |
| PolySplit.SplitQuadrants | polysplit.cpp:71-105 | The repair step and the quadrant loop append the four quadrant runs in order 0..3. The polygon is replaced by its zero buffer when it is invalid or not simple. |
| PolySplit.QuadrantMask | polysplit.cpp:86-101 | The in-place `bbox` switch and the five point writes build exactly `Mask(QuadrantBox(envelope, centroid, q))`. |
| PolySplit.PolyList.PushBack | polysplit.cpp:67 | `push_back` adds exactly one element at the end. |
| PolySplit.ErrorStream.Write | polysplit.cpp:47 | Writing to standard error adds exactly one line at the end. |

## Left out

- The geometry engine (OGR's `Intersection`, `Buffer`, `IsValid`, `IsSimple`, `Centroid`, `getEnvelope`) is foreign floating-point code. It is an arbitrary total function in the model. As a result, union preservation and the validity or simplicity of output pieces are not stated.
- When `Buffer(0)` returns null, the source dereferences the null pointer at polysplit.cpp:78 and crashes. In the model, `e.buffer` may return `Null`, and the model then goes on: it takes the centroid and envelope of `Null` and intersects the masks with it. So the model does not capture that crash. It also does not capture the cast of a non-polygon buffer result to `OGRPolygon*`, since OGR's virtual calls work on any geometry.
- Termination: the fuel bound is added to the model and does not exist in the source. Where the source would recurse deeper than the fuel, the model drops the deeper pieces and reports `complete == false`. The properties are stated for partial runs too.
- The engine's own diagnostics are not modelled. GEOS writes warnings to standard error during `IsValid`, `IsSimple` and `Buffer(0)` (polysplit.cpp:37-39, 72-73). `ErrorStream` holds only what `split_polygons` itself writes, the warning at polysplit.cpp:47.
- Memory management is out: `clone`, `delete piece`, the `polygonIsPwned` flag and `delete polygon`. It has no effect on the pieces produced. A piece is the polygon value itself rather than a copy.
- The command-line program is out: `create_destination`, `write_feature`, `usage` and `main`. This covers the GDAL driver, dataset and layer calls, option parsing, the `exit(1)` paths, the feature loop with its counters, and pairing pieces with feature ids.
- The global `debug` flag and the progress and summary messages of `main` are output only and not modelled. The null-geometry warning of `split_polygons` is modelled.
- Coordinates are `real` rather than `double`. The splitter only copies them, so no rounding is involved.
- `OGRMultiPolygon` members are always polygons. The model allows any geometry as a member, and the splitter handles each member by the same dispatch.
- Geometries of other kinds are treated as non-empty. An empty geometry of another kind adds nothing on either path, so this does not change any result.
