# Scanline quad filler, redraw order and vertex-buffer layout

This project models the core of a small computer-graphics coursework repository in Dafny:

- **Scanline filler** (`PJ1/src/implement.js`). A canvas shows a set of quads. Each quad lists four indices into a shared `vertex_pos` table. `calcEdge` turns a quad into four edges, each with a slope and an intercept. `calcIntersection` collects the x-crossings of one scanline with one quad and classifies corners on the scanline with `judgeIfExtreme`. `drawRect` walks the scanlines from the quad's top corner (`getTopBottom`) to its bottom corner and pairs the sorted crossings into horizontal spans.
- **Redraw** (`draw`). It clears the canvas, fills the quads in an order that puts the quads holding a dragged vertex on top, and then draws a marker for every vertex.
- **Mouse handlers.** They form a capture, drag and release state machine over `vertex_pos`.
- **Buffer layout** (`PJ2/code/utils.js`). `loadVertices` writes each quad as two fan triangles of interleaved `x, y, r, g, b` records. `loadBorderVertices` writes the `x, y` pairs of a fixed 26-entry border list.

Coordinates are exact `real`s. The drawing surface is an output trace of `Record`s:

- `Clear`;
- `Span(shape, y, x1, x2, color)`, for one `drawLine` of a fill;
- `Marker(vertex, x, y, radius)`, for one `drawVertex`.

The structural failures that the source reports with `alert`, or runs into by reading past an array, become `Err` values of a `Result`.

Modules and files:

- `geometry.dfy`: points, vertices, colours, `POLY_EDGES`, `Result`, and the prefix and concatenation combinators on results.
- `sorting.dfy`: the ascending sort of the crossing list.
- `edges.dfy`: `calcSlope`, `calcEdge`, `getRectVertices`.
- `extreme.dfy`: `judgeIfExtreme` and its behaviour on quads.
- `intersection.dfy`: `calcIntersection` and the geometry of edge crossings.
- `raster.dfy`: `getTopBottom`, `drawRect`.
- `scheduler.dfy`: `draw`, its redraw order and the layout of its trace.
- `interaction.dfy`: the mouse handlers, as a class `Editor` over a `vertex_pos` array.
- `bufferlayout.dfy`: `loadVertices`, `loadBorderVertices`.

The loops of the source are Dafny methods with loop invariants. Each method is proved against a specification function, and the properties the source relies on are lemmas about those functions.

## Model

| member | source | states |
|---|---|---|
| Edges.LineThrough | PJ1/src/implement.js:86-90 | The line is vertical exactly when both endpoints share x. Otherwise both endpoints satisfy `y = k*x + b`, and the slope is zero exactly when the endpoints share y. |
| Edges.EdgeOf | PJ1/src/implement.js:149-165 | One edge: the endpoints are the current and next corner, ordered so that `l.x <= r.x`. On a tie the next corner is on the left. The line goes through the ordered endpoints. |
| Edges.CalcEdge | PJ1/src/implement.js:145-168 | There is exactly one edge per corner. Edge `i` joins corner `i` and corner `(i+1) % POLY_EDGES`, with `l.x <= r.x`. |
| Edges.GetRectVertices | PJ1/src/implement.js:92-99 | Corner `j` of the quad is vertex `quad[j]` at its current position, one corner per index. |
| Extreme.ExtremeSpec | PJ1/src/implement.js:113-134 | The classification is an error exactly when the set `Incident` of edges having the vertex as an endpoint does not have two members, and that error is `WrongCheckList`. |
| Extreme.NeighboursIncident | PJ1/src/implement.js:114-122 | The `checkList` has exactly one entry per edge that has the vertex as an endpoint, so its length is the number of such edges. |
| Extreme.JudgeIfExtreme | PJ1/src/implement.js:113-134 | The loop's result equals `ExtremeSpec`. On success it is true exactly when both neighbours are strictly above, or both strictly below, the vertex. |
| Extreme.NeighboursOfFour | PJ1/src/implement.js:115-122 | Over four edges, the neighbour list is the four per-edge contributions in edge order. |
| Extreme.EdgeOfContribution | PJ1/src/implement.js:116-121 | An edge between two different vertices gives a vertex the other endpoint when it is one of them, and nothing otherwise. |
| Extreme.EdgeAt | PJ1/src/implement.js:148-150 | Edge `i` of a quad joins corner `i` to the next corner, with the wrap-around from corner 3 to corner 0 written out. |
| Extreme.EdgeContribution | PJ1/src/implement.js:113-122 | In a quad with distinct corners, an edge gives a corner its next corner when the edge starts there, its previous corner when the edge ends there, and nothing otherwise. |
| Extreme.QuadNeighbours | PJ1/src/implement.js:113-126 | In a quad with distinct corners, every corner has exactly two neighbours: its previous and its next corner, in some order. |
| Extreme.QuadExtreme | PJ1/src/implement.js:113-134 | For such a quad the classification never fails. A corner is extreme exactly when its previous and next corners are both strictly above or both strictly below it. A corner with a horizontal neighbour is never extreme. |
| Intersection.CalcIntersection | PJ1/src/implement.js:170-212 | The result equals `IntersectionSpec`, and it is an error exactly when a corner's classification fails. On success it is sorted ascending and is a permutation of the corner contributions followed by the edge contributions. |
| Intersection.HorizontalEdgeNoCrossing | PJ1/src/implement.js:200-206 | For `eps > 0`, a horizontal or zero-length edge never adds a crossing. |
| Intersection.VerticalEdgeCrossing | PJ1/src/implement.js:200-206 | A vertical edge adds its x exactly when `y` is more than `eps` inside its y-range. |
| Intersection.SlantedEdgeCrossing | PJ1/src/implement.js:192-198 | A slanted edge adds the point where it meets the scanline exactly when that point is more than `eps` inside both endpoints in x. |
| Intersection.SlopeInterceptCrossing | PJ1/src/implement.js:161-163 | For a slanted edge, solving `y = k*x + b` gives the interpolated crossing of the segment. |
| Intersection.CrossingXSymmetric | PJ1/src/implement.js:152-159 | The crossing does not depend on which endpoint comes first, so the endpoint reordering of `calcEdge` does not change it. |
| Intersection.CrossingInsideEdge | PJ1/src/implement.js:192-198 | A crossing more than `eps` inside a slanted edge's x-range lies strictly inside its y-range, so the scanline passes through the edge's interior. |
| Intersection.StrictlyBetween | PJ1/src/implement.js:195-196 | A proportional point strictly inside one range is strictly inside the other. This supports `CrossingInsideEdge`. |
| Intersection.CancelFactor | PJ1/src/implement.js:195 | Cancelling a non-zero factor. This supports `SlopeInterceptCrossing`. |
| Intersection.VertexCrossingsFail | PJ1/src/implement.js:173-186 | The corner contributions fail exactly when some corner on the scanline has a number of incident edges (`Incident`) other than two. |
| Intersection.QuadVertexCrossing | PJ1/src/implement.js:173-186 | For a quad with distinct corners: a corner off the scanline adds nothing. A corner on it adds its x twice when it is a turning point between its previous and next corners, and once otherwise. |
| Intersection.QuadIntersectionOk | PJ1/src/implement.js:170-212 | For a quad with distinct corners, the crossing list at any height is never an error. |
| Sorting.Insert | PJ1/src/implement.js:211 | Inserting into a sorted list keeps it sorted, adds exactly the new element, and increases the length by one. |
| Sorting.ConsSorted | PJ1/src/implement.js:211 | Putting an element no larger than the rest in front keeps a list sorted. |
| Sorting.Sort | PJ1/src/implement.js:211 | The sort is ascending and is a permutation of its input. |
| Sorting.SortedUnique | PJ1/src/implement.js:211 | Two sorted lists with the same elements are equal, so any correct ascending sort returns the same crossing list. |
| Sorting.HeadIsLeast | PJ1/src/implement.js:211 | The head of a sorted list is no larger than any of its elements. |
| Raster.TopBottomBounds | PJ1/src/implement.js:102-110 | The top is the smallest corner height and the bottom is the largest. Every corner lies between them, and each bound is reached by some corner. |
| Raster.GetTopBottom | PJ1/src/implement.js:102-110 | The loop returns the smallest and the largest corner height, `top <= bottom`, and every corner lies between them. |
| Raster.EmitSpans | PJ1/src/implement.js:234-236 | For an even crossing list, one span per pair `(xs[2j], xs[2j+1])`, so half as many spans as crossings. |
| Raster.RowSpansWellFormed | PJ1/src/implement.js:232-236 | The spans of a row lie on that row, run left to right, do not overlap, and number half the crossings. A row fails exactly when its crossings fail or are odd in number. |
| Raster.RowVisited | PJ1/src/implement.js:232 | Row `top + i` is visited exactly when it is not below `bottom`. |
| Raster.RowCountStep | PJ1/src/implement.js:232 | Stepping `y` down one row leaves one row fewer to visit. |
| Raster.RowsWellFormed | PJ1/src/implement.js:232-237 | When every row draws only spans of one shape and colour on that row, the rows together draw such spans between the first and last row, top row first. |
| Raster.RowsFail | PJ1/src/implement.js:232-237 | The rows together fail exactly when some visited row fails, and then with the error of the first failing row. |
| Raster.RowFillWellFormed | PJ1/src/implement.js:231-236 | Every row of a quad's fill draws left-to-right spans of that quad, in the given colour, on that row. |
| Raster.RectRasterWellFormed | PJ1/src/implement.js:229-238 | A filled quad is a stack of left-to-right spans of that quad, in the colour of vertex `vIndex[0]`, on rows from its top corner to its bottom corner, top first. |
| Raster.RectRasterFails | PJ1/src/implement.js:229-238 | A quad's fill fails exactly when one of the rows `top + i <= bottom` fails. |
| Raster.RowsOnlyOdd | PJ1/src/implement.js:232-237 | When no row can fail except on an odd crossing count, the rows together cannot fail otherwise either. |
| Raster.QuadRasterOnlyOdd | PJ1/src/implement.js:229-238 | The fill of a quad with distinct corners and its own edges can fail only on an odd crossing count, never on a malformed neighbour list. |
| Raster.DrawRow | PJ1/src/implement.js:233-236 | One pass of the row loop draws exactly `RowSpans` for that height, and every span runs left to right. |
| Raster.RowsStep | PJ1/src/implement.js:232-237 | One row of the loop either ends the fill with its error or appends its spans and continues with one row fewer. |
| Raster.DrawRows | PJ1/src/implement.js:232-237 | The row loop from `top` while `y <= bottom` draws exactly the rows `RowCount(top, bottom)` counts. |
| Raster.DrawRect | PJ1/src/implement.js:229-238 | `drawRect` draws exactly `RectRaster`: the rows from the top corner to the bottom corner, coloured with vertex `vIndex[0]`. |
| Scheduler.Range | PJ1/src/implement.js:294 | The full-redraw order is `0, 1, ..., n-1`. |
| Scheduler.SelectMembers | PJ1/src/implement.js:306-322 | The selection holds exactly the indices below `n` whose quad does (or does not) contain the vertex. |
| Scheduler.SelectAt | PJ1/src/implement.js:306-322 | Each entry of a selection is a quad index with the wanted membership. |
| Scheduler.SelectAscending | PJ1/src/implement.js:306-322 | Each selection is strictly ascending. |
| Scheduler.RangeSnoc | PJ1/src/implement.js:318 | The indices below `n + 1` are those below `n`, plus `n`. |
| Scheduler.SelectSnoc | PJ1/src/implement.js:306-322 | One more quad adds its index to exactly one of the two selections. |
| Scheduler.SelectPartition | PJ1/src/implement.js:305-324 | The unaffected and the affected selections together hold every index below `n` exactly once. |
| Scheduler.DrawOrderInRange | PJ1/src/implement.js:291-331 | Every index in a redraw order names a quad. |
| Scheduler.DrawOrderFails | PJ1/src/implement.js:312-314 | After a vertex moved, the redraw order fails exactly when no quad holds that vertex. |
| Scheduler.DrawOrderPermutation | PJ1/src/implement.js:291-324 | Every successful redraw order, full or after a move, is a permutation of `0..n-1`. |
| Scheduler.DrawOrderGroups | PJ1/src/implement.js:305-324 | After a move, no quad holding the vertex comes before one without it, and quads on the same side stay in ascending index order. |
| Scheduler.RedrawOrder | PJ1/src/implement.js:305-324 | The two loops and the concatenation build exactly `DrawOrder`: the unaffected quads ascending, then the affected ones ascending, or an error when none is affected. |
| Scheduler.RectOf | PJ1/src/implement.js:326-328 | The `rect` that `draw` builds for quad `ind` has four corners, carries the quad's vertex list and has index `ind`. |
| Scheduler.LayersAppend | PJ1/src/implement.js:325-330 | Filling the quads of `a + b` is filling those of `a`, then those of `b`, and the first failure wins. |
| Scheduler.DrawShape | PJ1/src/implement.js:326-329 | One pass of the redraw loop draws exactly the fill of that quad. |
| Scheduler.DrawLayers | PJ1/src/implement.js:325-330 | The redraw loop (and the full-redraw loop at 294-299) draws the fills of the order, one after the other, and stops at the first failing quad. |
| Scheduler.DrawMarkers | PJ1/src/implement.js:335-337 | The last loop draws one marker per vertex, in ascending vertex index. |
| Scheduler.FrameOf | PJ1/src/implement.js:286-338 | Once the order is known, a redraw is that order's fills between the clearing and the markers, or the order's error. |
| Scheduler.ShapeFillMatches | PJ1/src/implement.js:295-298 | The per-quad fill is defined on every quad index and is that quad's `drawRect`. |
| Scheduler.DrawWith | PJ1/src/implement.js:286-338 | The body of `draw` yields exactly `Frame`: clearing, then fills in the redraw order, then markers. |
| Scheduler.Draw | PJ1/src/implement.js:286-338 | `draw` yields exactly `DrawSpec`. |
| Scheduler.LayersShapes | PJ1/src/implement.js:325-330 | Fills that draw only their own quad's spans, layered, draw only spans of quads in the order. |
| Scheduler.LayersOrdered | PJ1/src/implement.js:325-330 | Layering such fills in an order of strictly increasing rank draws spans in non-decreasing rank of their quads. |
| Scheduler.DrawKey | PJ1/src/implement.js:291-324 | On a full redraw, a quad's rank is its index. After a move, a quad's rank is at least the quad count exactly when the quad holds the moved vertex. |
| Scheduler.DrawOrderKeyed | PJ1/src/implement.js:291-324 | Every redraw order lists its quads in strictly increasing rank. |
| Scheduler.ShapeFillOwnSpans | PJ1/src/implement.js:295-298 | Each quad's fill draws only spans of that quad. |
| Scheduler.FrameLayout | PJ1/src/implement.js:286-338 | A successful redraw is `Clear`, then the fills of the redraw order, then the marker of every vertex in index order. |
| Scheduler.FrameSpans | PJ1/src/implement.js:286-338 | Between the clearing and the markers, a successful redraw draws only spans of existing quads, in non-decreasing rank. |
| Scheduler.DrawLayout | PJ1/src/implement.js:286-338 | `draw`'s trace is `Clear`, then spans of existing quads in non-decreasing rank, then the markers of all vertices in index order. |
| Scheduler.MovedShapesOnTop | PJ1/src/implement.js:291-331 | On a full redraw, spans come in quad index order. After a move, no span of a quad without the vertex follows a span of a quad holding it. |
| Scheduler.LayersOnlyOdd | PJ1/src/implement.js:325-330 | If every fill can fail only on an odd crossing count, so can the layered fills. |
| Scheduler.DrawErrors | PJ1/src/implement.js:286-338 | When every quad has four different corners, a redraw fails only on an odd crossing count, or when no quad holds the moved vertex. |
| Interaction.FirstHit | PJ1/src/implement.js:252-258 | The result is the smallest index from `from` on that is within range of the pointer, or none when no vertex from there is in range. |
| Interaction.FirstHitAt | PJ1/src/implement.js:252-258 | A hit vertex with no hit before it is the first hit. |
| Interaction.NoFirstHit | PJ1/src/implement.js:252-258 | With no vertex in range, there is no first hit. |
| Interaction.Editor.SceneOf | PJ1/src/implement.js:286-338 | The editor's state is a well-formed scene for `draw`, over the current vertex positions. |
| Interaction.Editor.constructor | PJ1/src/implement.js:247 | A new editor holds the given shapes and positions and has nothing captured. |
| Interaction.Editor.MouseDown | PJ1/src/implement.js:249-259 | Captures the smallest vertex index within range of the pointer. When none is in range, the capture is unchanged. |
| Interaction.Editor.MouseMove | PJ1/src/implement.js:261-267 | With no capture, nothing changes and nothing is drawn. With a capture, only the captured vertex's position changes, to the pointer, and the redraw is `DrawSpec` with that vertex moving. |
| Interaction.Editor.MouseUp | PJ1/src/implement.js:270-272 | Releases the capture. |
| Interaction.Editor.MouseLeave | PJ1/src/implement.js:275-277 | Releases the capture. |
| BufferLayout.QuadDataLayout | PJ2/code/utils.js:87-94 | A quad's block has five values per emitted corner. Value `f` of record `j` is value `f` of corner `FAN_ORDER[j]`: `x, y` of its position, then `r, g, b` of its colour. |
| BufferLayout.VertexDataLayout | PJ2/code/utils.js:83-97 | The buffer has thirty values per quad, and quad `p` occupies `[30p, 30p+30)` with the records of corners `0,1,2,0,2,3`. |
| BufferLayout.LoadVertices | PJ2/code/utils.js:83-97 | The loops produce `VertexData`. Its length is `30 * |polygon|`, and entry `30p + 5j + f` is field `f` of vertex `polygon[p][FAN_ORDER[j]]`. The method reads the tables and modifies nothing. |
| BufferLayout.BorderIndices | PJ2/code/utils.js:101 | Every border entry is below 9, and 8 occurs, so the border needs exactly nine vertices. |
| BufferLayout.BorderDataLayout | PJ2/code/utils.js:99-107 | The border buffer has two values per entry: the x and the y of the vertex that entry names. |
| BufferLayout.LoadBorderVertices | PJ2/code/utils.js:99-107 | Given at least nine positions, the loop produces 52 values, and entries `2m, 2m+1` are x and y of `vertex_pos[BORDER_ORDER[m]]`. It takes no quad list and modifies nothing. |

## Left out

- `calcDistance` uses `Math.sqrt`. `Interaction.Hit` compares squared distances instead, which is equivalent because the pick range is not negative (`Editor.Valid` requires it).
- IEEE-754 doubles are modelled as exact reals.
  - A non-finite slope (`dy / 0`) is the `Vertical` line variant.
  - Rounding in the crossing computation is not modelled.
- The third (`z`) coordinate of `vertex_pos` entries is never read by the filler and is dropped.
- Canvas primitives (`drawLine`, `drawVertex`, `clearRect`, the canvas and context setup) are not called. Each is recorded as one trace record.
- Alert-then-continue is modelled as an error outcome; after an `alert` the model stops where the source carries on.
  - `judgeIfExtreme` with other than two neighbours gives `Err(WrongCheckList)`. The source alerts and then reads `checkList[0]` and `checkList[1]`, which may be undefined.
  - `draw` after a move, with no quad holding the vertex, gives `Err(NoAffectedShape)`. The source alerts and then fills every quad in index order and draws the markers.
- An odd crossing count in `drawRect` gives `Err(OddCrossings)`. The source reads `intersect[i+1]` past the end and draws a line to an undefined x.
- Evenness of the crossing count for every simple quad is not proved. `Raster.QuadRasterOnlyOdd` and `Scheduler.DrawErrors` show that this is the only way a redraw of well-formed quads can fail.
- `drawRect` visits `y = top, top + 1, ...` while `y <= bottom`. When `top` is not a whole number, these are not whole-numbered rows; the model follows the code.
- Worked example of a unit square cut at the height of its top edge: the code treats the two corners on that edge as non-extreme, because each has a horizontal neighbour (`Extreme.QuadExtreme`). Each corner is pushed once, not twice. The resulting span is the same.
- The contents of `config.js` (`polygon`, `vertex_pos`, `vertex_color`, `ACCURACY_RANGE`, `VALID_RANGE`, `canvasSize`) are not part of this model. They are parameters: a `Scene` for the redraw, the `Editor` fields for the handlers, and the array arguments of the loaders.
- The redraw draws markers with radius `VALID_RANGE`, as the source does. The colours and the outline of markers are not modelled.
- `BufferLayout.LoadVertices` and `BufferLayout.LoadBorderVertices` are generic over the element type, because they only copy values. That they leave the tables unchanged follows from their empty `modifies` frame.
- `PJ2/code/PJ2.js` (WebGL setup, shaders, the animation loop and matrix transforms) is not part of this model. Neither are the shader strings, `transformCanvasToWebgl`, `preprocess`, `initVertexBuffers`, `initLineBuffers` and `resetPosition` in `PJ2/code/utils.js`.
- Event dispatch is not modelled: the handlers are methods that the caller invokes. So is the initial `draw()` at load time, which is `Scheduler.Draw` with no moving vertex.
