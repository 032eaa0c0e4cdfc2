/** Classification of a vertex that lies on the scanline (`judgeIfExtreme`). */
module Extreme {
  import opened Geometry
  import opened Edges

  /** What one edge adds to the neighbour list of `v`: an edge whose left
      endpoint is `v` gives its right endpoint, otherwise an edge whose right
      endpoint is `v` gives its left one. */
  function Contribution(v: Vertex, e: Edge): seq<Point> {
    if e.l.id == v.id then [e.r.pos] else if e.r.id == v.id then [e.l.pos] else []
  }

  /** The far endpoints of the edges that have `v` as an endpoint, in edge
      order: the source's `checkList`. */
  function Neighbours(v: Vertex, edges: seq<Edge>): seq<Point>
  {
    if edges == [] then []
    else Neighbours(v, edges[..|edges| - 1]) + Contribution(v, edges[|edges| - 1])
  }

  /** Edge `e` has `v` as an endpoint. */
  predicate Touches(v: Vertex, e: Edge) {
    e.l.id == v.id || e.r.id == v.id
  }

  /** The indices of the edges that have `v` as an endpoint. */
  function Incident(v: Vertex, edges: seq<Edge>): set<nat> {
    set i: nat | i < |edges| && Touches(v, edges[i])
  }

  /** The neighbour list holds one entry per edge that has `v` as an
      endpoint. */
  lemma {:induction false} NeighboursIncident(v: Vertex, edges: seq<Edge>)
    ensures |Neighbours(v, edges)| == |Incident(v, edges)|
    decreases |edges|
  {
    if edges != [] {
      var n := |edges| - 1;
      var init := edges[..n];
      NeighboursIncident(v, init);
      var before := Incident(v, init);
      assert n !in before;
      if Touches(v, edges[n]) {
        assert Incident(v, edges) == before + {n};
      } else {
        assert Incident(v, edges) == before;
      }
    }
  }

  /** A local turning point at height `y`: both neighbours strictly below it,
      or both strictly above it. */
  predicate TurningPoint(y: real, a: real, b: real) {
    (a > y && b > y) || (a < y && b < y)
  }

  /** What `judgeIfExtreme` decides for `v`: an error unless exactly two edges
      meet at `v`, and otherwise whether `v` is a turning point between them. */
  function ExtremeSpec(v: Vertex, edges: seq<Edge>): (r: Result<bool>)
    ensures r.Err? <==> |Incident(v, edges)| != 2
    ensures r.Err? ==> r.error == WrongCheckList
  {
    NeighboursIncident(v, edges);
    var c := Neighbours(v, edges);
    if |c| != 2 then Err(WrongCheckList)
    else Ok(TurningPoint(v.pos.y, c[0].y, c[1].y))
  }

  /** `judgeIfExtreme`: collects the neighbours of `v`, then compares their
      heights with that of `v`. */
  method JudgeIfExtreme(v: Vertex, edges: seq<Edge>) returns (r: Result<bool>)
    ensures r == ExtremeSpec(v, edges)
    ensures r.Ok? ==> (r.value <==>
      TurningPoint(v.pos.y, Neighbours(v, edges)[0].y, Neighbours(v, edges)[1].y))
  {
    var checkList: seq<Point> := [];
    for i := 0 to |edges|
      invariant checkList == Neighbours(v, edges[..i])
    {
      var e := edges[i];
      assert edges[..i + 1][..i] == edges[..i];
      if e.l.id == v.id {
        checkList := checkList + [e.r.pos];
      } else if e.r.id == v.id {
        checkList := checkList + [e.l.pos];
      }
    }
    assert edges[..|edges|] == edges;
    if |checkList| != 2 {
      return Err(WrongCheckList);
    }
    var y := v.pos.y;
    if (checkList[0].y > y && checkList[1].y > y) || (checkList[0].y < y && checkList[1].y < y) {
      r := Ok(true);
    } else {
      r := Ok(false);
    }
  }

  /** The corners of a quad reference pairwise different vertices. */
  predicate DistinctIds(q: seq<Vertex>) {
    forall i, j :: 0 <= i < j < |q| ==> q[i].id != q[j].id
  }

  /** The corner before corner `j` of a quad, wrapping around. */
  function Prev(q: seq<Vertex>, j: nat): Vertex
    requires |q| == POLY_EDGES && j < POLY_EDGES
  {
    q[if j == 0 then POLY_EDGES - 1 else j - 1]
  }

  /** The corner after corner `j` of a quad, wrapping around. */
  function Next(q: seq<Vertex>, j: nat): Vertex
    requires |q| == POLY_EDGES && j < POLY_EDGES
  {
    q[if j == POLY_EDGES - 1 then 0 else j + 1]
  }

  /** The neighbour list over four edges is the four contributions in order. */
  lemma NeighboursOfFour(v: Vertex, es: seq<Edge>)
    requires |es| == 4
    ensures Neighbours(v, es) ==
      Contribution(v, es[0]) + Contribution(v, es[1]) + Contribution(v, es[2]) + Contribution(v, es[3])
  {
    assert es[..3][..2] == es[..2] && es[..2][..1] == es[..1] && es[..1][..0] == [];
    assert Neighbours(v, es) == Neighbours(v, es[..3]) + Contribution(v, es[3]);
    assert Neighbours(v, es[..3]) == Neighbours(v, es[..2]) + Contribution(v, es[2]);
    assert Neighbours(v, es[..2]) == Neighbours(v, es[..1]) + Contribution(v, es[1]);
    assert Neighbours(v, es[..1]) == [] + Contribution(v, es[0]);
  }

  /** An edge between two different vertices gives `v` the other endpoint
      when `v` is one of them, and nothing otherwise. */
  lemma EdgeOfContribution(v: Vertex, a: Vertex, b: Vertex)
    requires a.id != b.id
    ensures Contribution(v, EdgeOf(a, b)) ==
      if v.id == a.id then [b.pos] else if v.id == b.id then [a.pos] else []
  {
  }

  /** Edge `i` of a quad, with the wrap-around written out. */
  lemma EdgeAt(q: seq<Vertex>, i: nat)
    requires |q| == POLY_EDGES && i < POLY_EDGES
    ensures EdgesOf(q)[i] == EdgeOf(q[i], q[if i == 3 then 0 else i + 1])
  {
    var n := if i == 3 then 0 else i + 1;
    assert (i + 1) % POLY_EDGES == n by {
      if i == 3 { assert 4 % 4 == 0; }
    }
    assert EdgesOf(q)[i] == EdgeOf(q[i], q[(i + 1) % POLY_EDGES]);
  }

  /** In a quad with distinct corners, edge `i` gives corner `j` its next
      corner when it starts at `j`, its previous corner when it ends at `j`,
      and nothing otherwise. */
  lemma EdgeContribution(q: seq<Vertex>, j: nat, i: nat)
    requires |q| == POLY_EDGES && DistinctIds(q) && j < POLY_EDGES && i < POLY_EDGES
    ensures var n := if i == 3 then 0 else i + 1;
      Contribution(q[j], EdgesOf(q)[i]) ==
        if i == j then [q[n].pos] else if n == j then [q[i].pos] else []
  {
    var n := if i == 3 then 0 else i + 1;
    EdgeAt(q, i);
    assert q[i].id != q[n].id;
    EdgeOfContribution(q[j], q[i], q[n]);
    assert q[j].id == q[i].id <==> i == j;
    assert q[j].id == q[n].id <==> n == j;
  }

  /** In a quad whose corners are distinct vertices, each corner is an
      endpoint of exactly two edges, and its neighbours are the corners
      before and after it. */
  lemma QuadNeighbours(q: seq<Vertex>, j: nat)
    requires |q| == POLY_EDGES && DistinctIds(q) && j < POLY_EDGES
    ensures |Neighbours(q[j], EdgesOf(q))| == 2
    ensures var c := Neighbours(q[j], EdgesOf(q));
      (c[0] == Prev(q, j).pos && c[1] == Next(q, j).pos) ||
      (c[0] == Next(q, j).pos && c[1] == Prev(q, j).pos)
  {
    var es := EdgesOf(q);
    NeighboursOfFour(q[j], es);
    EdgeContribution(q, j, 0);
    EdgeContribution(q, j, 1);
    EdgeContribution(q, j, 2);
    EdgeContribution(q, j, 3);
    var p, n := Prev(q, j).pos, Next(q, j).pos;
    var c0, c1, c2, c3 := Contribution(q[j], es[0]), Contribution(q[j], es[1]),
      Contribution(q[j], es[2]), Contribution(q[j], es[3]);
    if j == 0 {
      assert p == q[3].pos && n == q[1].pos;
      assert c0 == [n] && c1 == [] && c2 == [] && c3 == [p];
    } else if j == 1 {
      assert p == q[0].pos && n == q[2].pos;
      assert c0 == [p] && c1 == [n] && c2 == [] && c3 == [];
    } else if j == 2 {
      assert p == q[1].pos && n == q[3].pos;
      assert c0 == [] && c1 == [p] && c2 == [n] && c3 == [];
    } else {
      assert p == q[2].pos && n == q[0].pos;
      assert c0 == [] && c1 == [] && c2 == [p] && c3 == [n];
    }
  }

  /** For a quad with distinct corners, `judgeIfExtreme` never reports an
      error, and a corner is extreme exactly when the corners before and after
      it are both strictly above or both strictly below it. In particular a
      corner with a horizontal edge is never extreme. */
  lemma QuadExtreme(q: seq<Vertex>, j: nat)
    requires |q| == POLY_EDGES && DistinctIds(q) && j < POLY_EDGES
    ensures ExtremeSpec(q[j], EdgesOf(q)) ==
      Ok(TurningPoint(q[j].pos.y, Prev(q, j).pos.y, Next(q, j).pos.y))
    ensures Prev(q, j).pos.y == q[j].pos.y || Next(q, j).pos.y == q[j].pos.y ==>
      ExtremeSpec(q[j], EdgesOf(q)) == Ok(false)
  {
    QuadNeighbours(q, j);
  }
}
