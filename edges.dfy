/** Edge construction for one quad (`calcSlope`, `calcEdge` and
    `getRectVertices` of the scanline filler). */
module Edges {
  import opened Geometry

  /** The line an edge lies on: `y = k * x + b`, or vertical when both
      endpoints share x (the source's slope is then ±Infinity or NaN, and its
      non-finite test sends the edge to the vertical branch). */
  datatype Line = Sloped(k: real, b: real) | Vertical

  /** An edge with its endpoints ordered so that `l` is not to the right of `r`. */
  datatype Edge = Edge(line: Line, l: Vertex, r: Vertex)

  /** Slope and intercept of the segment from `l` to `r`. */
  function LineThrough(l: Point, r: Point): (line: Line)
    ensures line.Vertical? <==> l.x == r.x
    ensures line.Sloped? ==> l.y == line.k * l.x + line.b && r.y == line.k * r.x + line.b
    ensures line.Sloped? ==> (line.k == 0.0 <==> l.y == r.y)
  {
    var dx := r.x - l.x;
    if dx == 0.0 then Vertical
    else
      var k := (r.y - l.y) / dx;
      assert k * dx == r.y - l.y;
      Sloped(k, l.y - k * l.x)
  }

  /** The edge from `current` to `next`, endpoints ordered by x; on a tie
      `next` becomes the left endpoint. */
  function EdgeOf(current: Vertex, next: Vertex): (e: Edge)
    ensures e.l.pos.x <= e.r.pos.x
    ensures (e.l == current && e.r == next) || (e.l == next && e.r == current)
    ensures current.pos.x >= next.pos.x ==> e.l == next && e.r == current
    ensures e.line == LineThrough(e.l.pos, e.r.pos)
  {
    if current.pos.x < next.pos.x then Edge(LineThrough(current.pos, next.pos), current, next)
    else Edge(LineThrough(next.pos, current.pos), next, current)
  }

  /** The edges of a quad: edge `i` joins corner `i` to corner `i + 1`,
      wrapping around. */
  function EdgesOf(vs: seq<Vertex>): seq<Edge>
    requires |vs| == POLY_EDGES
  {
    seq(|vs|, i requires 0 <= i < |vs| => EdgeOf(vs[i], vs[(i + 1) % POLY_EDGES]))
  }

  /** `calcEdge`: one edge per corner, joining it to the next corner. */
  method CalcEdge(vs: seq<Vertex>) returns (edges: seq<Edge>)
    requires |vs| == POLY_EDGES
    ensures edges == EdgesOf(vs)
    ensures |edges| == |vs|
    ensures forall i :: 0 <= i < |edges| ==>
      edges[i].l.pos.x <= edges[i].r.pos.x &&
      {edges[i].l, edges[i].r} == {vs[i], vs[(i + 1) % POLY_EDGES]}
  {
    edges := [];
    for i := 0 to |vs|
      invariant edges == EdgesOf(vs)[..i]
    {
      var current := vs[i];
      var next := vs[(i + 1) % POLY_EDGES];
      var l, r;
      if current.pos.x < next.pos.x {
        l, r := current, next;
      } else {
        l, r := next, current;
      }
      var line := LineThrough(l.pos, r.pos);
      edges := edges + [Edge(line, l, r)];
    }
  }

  /** A quad's corners, read from the current vertex positions. */
  function QuadVertices(quad: seq<nat>, pos: seq<Point>): (vs: seq<Vertex>)
    requires forall j :: 0 <= j < |quad| ==> quad[j] < |pos|
  {
    seq(|quad|, j requires 0 <= j < |quad| => Vertex(quad[j], pos[quad[j]]))
  }

  /** `getRectVertices`: corner `j` of the quad is vertex `quad[j]` at its
      current position. */
  method GetRectVertices(quad: seq<nat>, pos: seq<Point>) returns (vs: seq<Vertex>)
    requires forall j :: 0 <= j < |quad| ==> quad[j] < |pos|
    ensures vs == QuadVertices(quad, pos)
    ensures |vs| == |quad|
    ensures forall j :: 0 <= j < |vs| ==> vs[j].id == quad[j] && vs[j].pos == pos[quad[j]]
  {
    vs := [];
    for j := 0 to |quad|
      invariant vs == QuadVertices(quad, pos)[..j]
    {
      vs := vs + [Vertex(quad[j], pos[quad[j]])];
    }
  }
}
