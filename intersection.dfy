/** The crossings of one scanline with one quad (`calcIntersection`). */
module Intersection {
  import opened Geometry
  import opened Sorting
  import opened Edges
  import opened Extreme

  /** What one edge adds at height `y`. A slanted edge adds the x where the
      scanline meets its line, when that x is more than `eps` inside both
      endpoints. Every other edge (vertical, and also horizontal, whose slope
      is zero) takes the vertical branch: it adds its x when `y` is more than
      `eps` inside the edge's y-range. */
  function EdgeCrossing(y: real, e: Edge, eps: real): seq<real> {
    if e.line.Sloped? && e.line.k != 0.0 then
      var x := (y - e.line.b) / e.line.k;
      if x - e.l.pos.x > eps && e.r.pos.x - x > eps then [x] else []
    else
      var topY := Min(e.l.pos.y, e.r.pos.y);
      var bottomY := Max(e.l.pos.y, e.r.pos.y);
      if bottomY - y > eps && y - topY > eps then [e.l.pos.x] else []
  }

  /** What the edges add, in edge order. */
  function EdgeCrossings(y: real, edges: seq<Edge>, eps: real): seq<real> {
    if edges == [] then []
    else EdgeCrossing(y, edges[0], eps) + EdgeCrossings(y, edges[1..], eps)
  }

  /** What one corner adds at height `y`: nothing when it is off the
      scanline; otherwise its x twice when it is extreme and once when it is
      not, or the error `judgeIfExtreme` reports. */
  function VertexCrossing(y: real, v: Vertex, edges: seq<Edge>): Result<seq<real>> {
    if v.pos.y != y then Ok([])
    else
      match ExtremeSpec(v, edges)
      case Err(e) => Err(e)
      case Ok(extreme) => Ok(if extreme then [v.pos.x, v.pos.x] else [v.pos.x])
  }

  /** What the corners add, in corner order; the first error wins. */
  function VertexCrossings(y: real, vs: seq<Vertex>, edges: seq<Edge>): Result<seq<real>> {
    if vs == [] then Ok([])
    else Concat(VertexCrossing(y, vs[0], edges), VertexCrossings(y, vs[1..], edges))
  }

  /** The sorted crossing list of `calcIntersection`. */
  function IntersectionSpec(y: real, edges: seq<Edge>, vs: seq<Vertex>, eps: real): Result<seq<real>> {
    match VertexCrossings(y, vs, edges)
    case Err(e) => Err(e)
    case Ok(xs) => Ok(Sort(xs + EdgeCrossings(y, edges, eps)))
  }

  /** `calcIntersection`: the corner contributions, then the edge
      contributions, sorted ascending. */
  method CalcIntersection(y: real, edges: seq<Edge>, vs: seq<Vertex>, eps: real)
    returns (r: Result<seq<real>>)
    ensures r == IntersectionSpec(y, edges, vs, eps)
    ensures r.Err? <==> VertexCrossings(y, vs, edges).Err?
    ensures r.Ok? ==> Sorted(r.value)
    ensures r.Ok? ==>
      multiset(r.value) == multiset(VertexCrossings(y, vs, edges).value + EdgeCrossings(y, edges, eps))
  {
    var intersecArr: seq<real> := [];
    assert vs[0..] == vs;
    PrefixedNothing(VertexCrossings(y, vs, edges));
    for i := 0 to |vs|
      invariant VertexCrossings(y, vs, edges) == Prefixed(intersecArr, VertexCrossings(y, vs[i..], edges))
    {
      var v := vs[i];
      assert vs[i..][1..] == vs[i + 1..];
      assert VertexCrossings(y, vs[i..], edges) ==
        Concat(VertexCrossing(y, v, edges), VertexCrossings(y, vs[i + 1..], edges));
      if v.pos.y == y {
        var extreme := JudgeIfExtreme(v, edges);
        if extreme.Err? {
          assert VertexCrossings(y, vs, edges) == Err(WrongCheckList);
          return Err(extreme.error);
        }
        var added := if extreme.value then [v.pos.x, v.pos.x] else [v.pos.x];
        assert VertexCrossing(y, v, edges) == Ok(added);
        PrefixedTwice(intersecArr, added, VertexCrossings(y, vs[i + 1..], edges));
        if extreme.value {
          intersecArr := intersecArr + [v.pos.x, v.pos.x];
        } else {
          intersecArr := intersecArr + [v.pos.x];
        }
      } else {
        assert VertexCrossing(y, v, edges) == Ok([]);
        PrefixedTwice(intersecArr, [], VertexCrossings(y, vs[i + 1..], edges));
        assert intersecArr + [] == intersecArr;
      }
    }
    assert vs[|vs|..] == [];
    ghost var fromVertices := intersecArr;
    assert VertexCrossings(y, vs, edges) == Ok(fromVertices) by {
      PrefixedNothing(VertexCrossings(y, vs[|vs|..], edges));
      assert fromVertices + [] == fromVertices;
    }
    for i := 0 to |edges|
      invariant intersecArr + EdgeCrossings(y, edges[i..], eps) ==
        fromVertices + EdgeCrossings(y, edges, eps)
    {
      var e := edges[i];
      assert edges[i..][1..] == edges[i + 1..];
      ghost var before := intersecArr;
      assert before + EdgeCrossings(y, edges[i..], eps) ==
        (before + EdgeCrossing(y, e, eps)) + EdgeCrossings(y, edges[i + 1..], eps);
      if e.line.Sloped? && e.line.k != 0.0 {
        var tempX := (y - e.line.b) / e.line.k;
        if tempX - e.l.pos.x > eps && e.r.pos.x - tempX > eps {
          intersecArr := intersecArr + [tempX];
        }
      } else {
        var topY := Min(e.l.pos.y, e.r.pos.y);
        var bottomY := Max(e.l.pos.y, e.r.pos.y);
        if bottomY - y > eps && y - topY > eps {
          intersecArr := intersecArr + [e.l.pos.x];
        }
      }
      assert intersecArr == before + EdgeCrossing(y, e, eps);
    }
    assert edges[|edges|..] == [] && edges[0..] == edges;
    assert intersecArr == fromVertices + EdgeCrossings(y, edges, eps);
    r := Ok(Sort(intersecArr));
  }

  /** Where the segment from `a` to `b` meets the horizontal line at height
      `y`, found by interpolation (the same for either endpoint order). */
  function CrossingX(a: Point, b: Point, y: real): real
    requires a.y != b.y
  {
    a.x + (y - a.y) * ((b.x - a.x) / (b.y - a.y))
  }

  /** A horizontal edge, or one of zero length, never adds a crossing. */
  lemma HorizontalEdgeNoCrossing(a: Vertex, b: Vertex, y: real, eps: real)
    requires eps > 0.0
    requires a.pos.y == b.pos.y
    ensures EdgeCrossing(y, EdgeOf(a, b), eps) == []
  {
  }

  /** A vertical edge adds its x exactly when `y` is more than `eps` inside
      its y-range. */
  lemma VerticalEdgeCrossing(a: Vertex, b: Vertex, y: real, eps: real)
    requires a.pos.x == b.pos.x
    ensures EdgeCrossing(y, EdgeOf(a, b), eps) ==
      if Min(a.pos.y, b.pos.y) + eps < y < Max(a.pos.y, b.pos.y) - eps then [a.pos.x] else []
  {
  }

  /** A slanted edge adds the point where it meets the scanline exactly when
      that point is more than `eps` inside both endpoints in x. */
  lemma SlantedEdgeCrossing(a: Vertex, b: Vertex, y: real, eps: real)
    requires a.pos.x != b.pos.x && a.pos.y != b.pos.y
    ensures var x := CrossingX(a.pos, b.pos, y);
      EdgeCrossing(y, EdgeOf(a, b), eps) ==
        if Min(a.pos.x, b.pos.x) + eps < x < Max(a.pos.x, b.pos.x) - eps then [x] else []
  {
    var e := EdgeOf(a, b);
    var l, r := e.l.pos, e.r.pos;
    assert Min(a.pos.x, b.pos.x) == l.x && Max(a.pos.x, b.pos.x) == r.x;
    SlopeInterceptCrossing(l, r, y);
    CrossingXSymmetric(l, r, y);
  }

  /** Solving `y = k * x + b` for x gives the interpolated crossing. */
  lemma SlopeInterceptCrossing(l: Point, r: Point, y: real)
    requires l.x != r.x && l.y != r.y
    ensures LineThrough(l, r).Sloped? && LineThrough(l, r).k != 0.0
    ensures (y - LineThrough(l, r).b) / LineThrough(l, r).k == CrossingX(l, r, y)
  {
    var k, c := LineThrough(l, r).k, LineThrough(l, r).b;
    var dx, dy := r.x - l.x, r.y - l.y;
    var x1 := (y - c) / k;
    var x2 := CrossingX(l, r, y);
    assert k * dx == dy;
    assert x1 * k == y - c;
    assert k * (x1 - l.x) == y - l.y;
    assert (x1 - l.x) * dy == (y - l.y) * dx by {
      assert (x1 - l.x) * dy == (x1 - l.x) * (k * dx);
      assert (x1 - l.x) * (k * dx) == (k * (x1 - l.x)) * dx;
    }
    assert (x2 - l.x) * dy == (y - l.y) * dx by {
      assert x2 - l.x == (y - l.y) * (dx / dy);
      assert (dx / dy) * dy == dx;
    }
    CancelFactor(x1 - l.x, x2 - l.x, dy);
  }

  lemma CancelFactor(p: real, q: real, d: real)
    requires d != 0.0 && p * d == q * d
    ensures p == q
  {
    assert (p - q) * d == 0.0;
  }

  /** The crossing does not depend on which endpoint is named first. */
  lemma CrossingXSymmetric(a: Point, b: Point, y: real)
    requires a.y != b.y
    ensures CrossingX(a, b, y) == CrossingX(b, a, y)
  {
    var m := (b.x - a.x) / (b.y - a.y);
    assert (a.x - b.x) / (a.y - b.y) == m;
    assert m * (b.y - a.y) == b.x - a.x;
    calc {
      CrossingX(b, a, y);
      b.x + (y - b.y) * m;
      b.x + (y - a.y) * m - (b.y - a.y) * m;
      b.x + (y - a.y) * m - (b.x - a.x);
      CrossingX(a, b, y);
    }
  }

  /** A crossing more than `eps` inside a slanted edge's x-range lies
      strictly inside its y-range: the scanline really passes through the
      interior of the edge. */
  lemma CrossingInsideEdge(a: Point, b: Point, y: real, eps: real)
    requires eps >= 0.0 && a.y != b.y
    requires Min(a.x, b.x) + eps < CrossingX(a, b, y) < Max(a.x, b.x) - eps
    ensures Min(a.y, b.y) < y < Max(a.y, b.y)
  {
    var dx, dy := b.x - a.x, b.y - a.y;
    var u, w := CrossingX(a, b, y) - a.x, y - a.y;
    assert u * dy == w * dx by {
      assert u == w * (dx / dy);
      assert (dx / dy) * dy == dx;
    }
    assert 0.0 < u < dx || dx < u < 0.0;
    StrictlyBetween(u, dx, w, dy);
  }

  /** If `u / dx == w / dy` and u lies strictly between 0 and dx, then w lies
      strictly between 0 and dy. */
  lemma StrictlyBetween(u: real, dx: real, w: real, dy: real)
    requires dx != 0.0 && dy != 0.0 && u * dy == w * dx
    requires 0.0 < u < dx || dx < u < 0.0
    ensures 0.0 < w < dy || dy < w < 0.0
  {
    assert (dy - w) * dx == dy * (dx - u);
    if dx > 0.0 && dy > 0.0 {
      assert w * dx > 0.0 && (dy - w) * dx > 0.0;
    } else if dx > 0.0 {
      assert w * dx < 0.0 && (dy - w) * dx < 0.0;
    } else if dy > 0.0 {
      assert w * dx < 0.0 && (dy - w) * dx < 0.0;
    } else {
      assert w * dx > 0.0 && (dy - w) * dx > 0.0;
    }
  }

  /** Corners are an error source only through `judgeIfExtreme`: the corner
      list fails exactly when some corner on the scanline is the endpoint of
      other than two edges. */
  lemma {:induction false} VertexCrossingsFail(y: real, vs: seq<Vertex>, edges: seq<Edge>)
    ensures VertexCrossings(y, vs, edges).Err? <==>
      exists i :: 0 <= i < |vs| && vs[i].pos.y == y && |Incident(vs[i], edges)| != 2
  {
    if vs != [] {
      VertexCrossingsFail(y, vs[1..], edges);
      if VertexCrossings(y, vs[1..], edges).Err? {
        var i :| 0 <= i < |vs[1..]| && vs[1..][i].pos.y == y && |Incident(vs[1..][i], edges)| != 2;
        assert vs[i + 1] == vs[1..][i];
      }
      if exists i :: 0 <= i < |vs| && vs[i].pos.y == y && |Incident(vs[i], edges)| != 2 {
        var i :| 0 <= i < |vs| && vs[i].pos.y == y && |Incident(vs[i], edges)| != 2;
        if i > 0 {
          assert vs[1..][i - 1] == vs[i];
        }
      }
    }
  }

  /** For a quad with distinct corners, a corner off the scanline adds
      nothing, and one on it adds its x twice when the corners before and
      after it are both strictly above or both strictly below it, once
      otherwise. */
  lemma QuadVertexCrossing(q: seq<Vertex>, j: nat, y: real)
    requires |q| == POLY_EDGES && DistinctIds(q) && j < POLY_EDGES
    ensures VertexCrossing(y, q[j], EdgesOf(q)) ==
      Ok(if q[j].pos.y != y then []
         else if TurningPoint(y, Prev(q, j).pos.y, Next(q, j).pos.y) then [q[j].pos.x, q[j].pos.x]
         else [q[j].pos.x])
  {
    QuadExtreme(q, j);
  }

  /** For a quad with distinct corners, `calcIntersection` never reports an
      error, at any height. */
  lemma QuadIntersectionOk(q: seq<Vertex>, y: real, eps: real)
    requires |q| == POLY_EDGES && DistinctIds(q)
    ensures IntersectionSpec(y, EdgesOf(q), q, eps).Ok?
  {
    VertexCrossingsFail(y, q, EdgesOf(q));
    forall i | 0 <= i < |q| ensures |Incident(q[i], EdgesOf(q))| == 2 {
      QuadNeighbours(q, i);
      NeighboursIncident(q[i], EdgesOf(q));
    }
  }
}
