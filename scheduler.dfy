/** The top-level redraw (`draw`): which quads are filled in which order,
    then the vertex markers. */
module Scheduler {
  import opened Geometry
  import opened Edges
  import opened Extreme
  import opened Raster

  /** What one redraw reads: the quads as lists of vertex indices
      (`polygon`), the vertex positions and colours, the accuracy margin of
      the crossing tests and the radius of the vertex markers (the pick
      radius, which also sizes the markers). */
  datatype Scene = Scene(polygon: seq<seq<nat>>, pos: seq<Point>, colors: seq<Color>, eps: real, radius: real)

  /** Every quad has four corners naming existing vertices, and every vertex
      has a colour. */
  predicate ValidScene(s: Scene) {
    |s.colors| == |s.pos| &&
    forall i :: 0 <= i < |s.polygon| ==>
      |s.polygon[i]| == POLY_EDGES && forall j :: 0 <= j < |s.polygon[i]| ==> s.polygon[i][j] < |s.pos|
  }

  /** The indices `0, 1, ..., n - 1`. */
  function Range(n: nat): (r: seq<nat>)
    ensures |r| == n && forall i :: 0 <= i < n ==> r[i] == i
  {
    seq(n, i => i)
  }

  /** The indices below `n` of the quads that contain vertex `m` (`want`) or
      do not contain it (`!want`), ascending. */
  function Select(polygon: seq<seq<nat>>, m: nat, want: bool, n: nat): seq<nat>
    requires n <= |polygon|
    decreases n
  {
    if n == 0 then []
    else Select(polygon, m, want, n - 1) + (if (m in polygon[n - 1]) == want then [n - 1] else [])
  }

  /** `Select` keeps exactly the indices below `n` whose quad contains `m`
      or not, as asked. */
  lemma {:induction false} SelectMembers(polygon: seq<seq<nat>>, m: nat, want: bool, n: nat)
    requires n <= |polygon|
    ensures forall i: nat :: i in Select(polygon, m, want, n) <==> i < n && (m in polygon[i]) == want
    decreases n
  {
    if n > 0 {
      SelectMembers(polygon, m, want, n - 1);
    }
  }

  /** Each entry of `Select` is an index below `n` whose quad contains `m`
      or not, as asked. */
  lemma SelectAt(polygon: seq<seq<nat>>, m: nat, want: bool, n: nat, k: nat)
    requires n <= |polygon| && k < |Select(polygon, m, want, n)|
    ensures var i := Select(polygon, m, want, n)[k]; i < n && (m in polygon[i]) == want
  {
    SelectMembers(polygon, m, want, n);
    assert Select(polygon, m, want, n)[k] in Select(polygon, m, want, n);
  }

  /** `Select` lists its indices in strictly ascending order. */
  lemma {:induction false} SelectAscending(polygon: seq<seq<nat>>, m: nat, want: bool, n: nat)
    requires n <= |polygon|
    ensures var s := Select(polygon, m, want, n);
      forall k, l :: 0 <= k < l < |s| ==> s[k] < s[l]
    decreases n
  {
    if n > 0 {
      SelectAscending(polygon, m, want, n - 1);
      var s, s' := Select(polygon, m, want, n - 1), Select(polygon, m, want, n);
      forall k, l | 0 <= k < l < |s'|
        ensures s'[k] < s'[l]
      {
        SelectAt(polygon, m, want, n - 1, k);
        if l == |s| {
          assert s'[l] == n - 1;
        }
      }
    }
  }

  /** The indices below `n + 1` are those below `n` and `n` itself. */
  lemma RangeSnoc(n: nat)
    ensures multiset(Range(n + 1)) == multiset(Range(n)) + multiset{n}
  {
    assert Range(n + 1) == Range(n) + [n];
  }

  /** One more quad adds its index to exactly one side of the split. */
  lemma SelectSnoc(polygon: seq<seq<nat>>, m: nat, n: nat)
    requires n < |polygon|
    ensures multiset(Select(polygon, m, false, n + 1) + Select(polygon, m, true, n + 1)) ==
      multiset(Select(polygon, m, false, n) + Select(polygon, m, true, n)) + multiset{n}
  {
    var f, t := Select(polygon, m, false, n), Select(polygon, m, true, n);
    if m in polygon[n] {
      assert Select(polygon, m, true, n + 1) == t + [n];
    } else {
      assert Select(polygon, m, false, n + 1) == f + [n];
    }
  }

  /** Splitting the indices below `n` by whether their quad contains `m`
      loses and duplicates none of them. */
  lemma {:induction false} SelectPartition(polygon: seq<seq<nat>>, m: nat, n: nat)
    requires n <= |polygon|
    ensures multiset(Select(polygon, m, false, n) + Select(polygon, m, true, n)) == multiset(Range(n))
    decreases n
  {
    if n > 0 {
      var k: nat := n - 1;
      var before := multiset(Select(polygon, m, false, k) + Select(polygon, m, true, k));
      var after := multiset(Select(polygon, m, false, n) + Select(polygon, m, true, n));
      SelectPartition(polygon, m, k);
      assert before == multiset(Range(k));
      RangeSnoc(k);
      SelectSnoc(polygon, m, k);
      assert after == before + multiset{k};
    }
  }
  /** The order in which `draw` fills the quads: index order on a full
      redraw; after vertex `m` moved, the quads without it, then the quads
      with it, each ascending. A vertex in no quad is an error. */
  function DrawOrder(polygon: seq<seq<nat>>, moving: Option<nat>): Result<seq<nat>> {
    match moving
    case None => Ok(Range(|polygon|))
    case Some(m) =>
      var affected := Select(polygon, m, true, |polygon|);
      if |affected| == 0 then Err(NoAffectedShape)
      else Ok(Select(polygon, m, false, |polygon|) + affected)
  }

  /** Every index in a redraw order names a quad. */
  lemma DrawOrderInRange(polygon: seq<seq<nat>>, moving: Option<nat>)
    ensures var r := DrawOrder(polygon, moving);
      r.Ok? ==> forall k :: 0 <= k < |r.value| ==> r.value[k] < |polygon|
  {
    if moving.Some? {
      SelectMembers(polygon, moving.value, true, |polygon|);
      SelectMembers(polygon, moving.value, false, |polygon|);
      var r := DrawOrder(polygon, moving);
      if r.Ok? {
        forall k | 0 <= k < |r.value|
          ensures r.value[k] < |polygon|
        {
          assert r.value[k] in r.value;
        }
      }
    }
  }

  /** After vertex `m` moved, the redraw order fails exactly when no quad
      holds `m`. */
  lemma DrawOrderFails(polygon: seq<seq<nat>>, m: nat)
    ensures DrawOrder(polygon, Some(m)).Err? <==> forall i :: 0 <= i < |polygon| ==> m !in polygon[i]
  {
    var affected := Select(polygon, m, true, |polygon|);
    SelectMembers(polygon, m, true, |polygon|);
    if |affected| == 0 {
      forall i | 0 <= i < |polygon|
        ensures m !in polygon[i]
      {
        assert i !in affected;
      }
    } else {
      SelectAt(polygon, m, true, |polygon|, 0);
    }
  }

  /** Any redraw order lists every quad index exactly once. */
  lemma DrawOrderPermutation(polygon: seq<seq<nat>>, moving: Option<nat>)
    ensures var r := DrawOrder(polygon, moving);
      r.Ok? ==> multiset(r.value) == multiset(Range(|polygon|))
  {
    if moving.Some? {
      SelectPartition(polygon, moving.value, |polygon|);
    }
  }

  /** `order` names quads only, never puts a quad holding `m` before one
      without it, and keeps quads on the same side in index order. */
  predicate MovedLast(polygon: seq<seq<nat>>, m: nat, order: seq<nat>) {
    forall j, l :: 0 <= j < l < |order| ==>
      order[j] < |polygon| && order[l] < |polygon| &&
      (m in polygon[order[j]] ==> m in polygon[order[l]]) &&
      ((m in polygon[order[j]]) == (m in polygon[order[l]]) ==> order[j] < order[l])
  }

  /** After vertex `m` moved, no quad holding `m` is filled before a quad
      without it, and quads on the same side are filled in index order. */
  lemma DrawOrderGroups(polygon: seq<seq<nat>>, m: nat)
    ensures var r := DrawOrder(polygon, Some(m)); r.Ok? ==> MovedLast(polygon, m, r.value)
  {
    var n := |polygon|;
    var unaffected, affected := Select(polygon, m, false, n), Select(polygon, m, true, n);
    if |affected| > 0 {
      SelectAscending(polygon, m, true, n);
      SelectAscending(polygon, m, false, n);
      var order := unaffected + affected;
      var k := |unaffected|;
      forall j, l | 0 <= j < l < |order|
        ensures order[j] < n && order[l] < n &&
          (m in polygon[order[j]] ==> m in polygon[order[l]]) &&
          ((m in polygon[order[j]]) == (m in polygon[order[l]]) ==> order[j] < order[l])
      {
        if j < k {
          SelectAt(polygon, m, false, n, j);
        } else {
          SelectAt(polygon, m, true, n, j - k);
        }
        if l < k {
          SelectAt(polygon, m, false, n, l);
        } else {
          SelectAt(polygon, m, true, n, l - k);
        }
      }
      assert MovedLast(polygon, m, order);
    }
  }

  /** `draw`'s construction of its redraw list after vertex `m` moved: the
      quads holding `m`, then, in front of them, every quad not already
      listed. */
  method RedrawOrder(polygon: seq<seq<nat>>, m: nat) returns (r: Result<seq<nat>>)
    ensures r == DrawOrder(polygon, Some(m))
  {
    var redraw: seq<nat> := [];
    for i := 0 to |polygon|
      invariant redraw == Select(polygon, m, true, i)
    {
      if m in polygon[i] {
        redraw := redraw + [i];
      }
    }
    if |redraw| == 0 {
      return Err(NoAffectedShape);
    }
    SelectMembers(polygon, m, true, |polygon|);
    var unaff: seq<nat> := [];
    for i := 0 to |polygon|
      invariant unaff == Select(polygon, m, false, i)
    {
      if i !in redraw {
        unaff := unaff + [i];
      }
    }
    r := Ok(unaff + redraw);
  }

  /** The quad with index `ind`, as `draw` assembles it for `drawRect`. */
  function RectOf(s: Scene, ind: nat): (rect: Rect)
    requires ValidScene(s) && ind < |s.polygon|
    ensures |rect.vertices| == POLY_EDGES && rect.vIndex == s.polygon[ind] && rect.index == ind
  {
    var vertices := QuadVertices(s.polygon[ind], s.pos);
    Rect(ind, s.polygon[ind], vertices, EdgesOf(vertices))
  }

  /** The fill of quad `ind`. */
  function ShapeRaster(s: Scene, ind: nat): Result<seq<Record>>
    requires ValidScene(s) && ind < |s.polygon|
  {
    RectRaster(RectOf(s, ind), s.colors, s.eps)
  }

  /** The fills of a scene's quads, by quad index. */
  function ShapeFill(s: Scene): nat --> Result<seq<Record>> {
    (ind: nat) requires ValidScene(s) && ind < |s.polygon| => ShapeRaster(s, ind)
  }

  /** The results of `fill` for the indices in `order`, one after the other;
      the first failing one decides the error. */
  function Layers(fill: nat --> Result<seq<Record>>, order: seq<nat>): Result<seq<Record>>
    requires forall k :: 0 <= k < |order| ==> fill.requires(order[k])
  {
    if |order| == 0 then Ok([])
    else Concat(fill(order[0]), Layers(fill, order[1..]))
  }

  /** Layering `a` then `b` is layering `a` and then layering `b`. */
  lemma {:induction false} LayersAppend(fill: nat --> Result<seq<Record>>, a: seq<nat>, b: seq<nat>)
    requires forall k :: 0 <= k < |a| ==> fill.requires(a[k])
    requires forall k :: 0 <= k < |b| ==> fill.requires(b[k])
    ensures forall k :: 0 <= k < |a + b| ==> fill.requires((a + b)[k])
    ensures Layers(fill, a + b) == Concat(Layers(fill, a), Layers(fill, b))
    decreases |a|
  {
    assert forall k :: 0 <= k < |a + b| ==> fill.requires((a + b)[k]) by {
      forall k | 0 <= k < |a + b|
        ensures fill.requires((a + b)[k])
      {
        if k >= |a| {
          assert (a + b)[k] == b[k - |a|];
        }
      }
    }
    if |a| == 0 {
      assert a + b == b;
      PrefixedNothing(Layers(fill, b));
    } else {
      assert (a + b)[1..] == a[1..] + b;
      LayersAppend(fill, a[1..], b);
      var first := fill(a[0]);
      if first.Ok? && Layers(fill, a[1..]).Ok? {
        PrefixedTwice(first.value, Layers(fill, a[1..]).value, Layers(fill, b));
      }
    }
  }

  /** The markers of all vertices, in index order. */
  function Markers(pos: seq<Point>, radius: real): seq<Record> {
    seq(|pos|, i requires 0 <= i < |pos| => Marker(i, pos[i].x, pos[i].y, radius))
  }

  /** A redraw with the quad fills given by `fill`: a cleared surface, the
      quads filled in the redraw order, then every vertex marker. */
  function Frame(s: Scene, moving: Option<nat>, fill: nat --> Result<seq<Record>>): Result<seq<Record>>
    requires forall i: nat :: i < |s.polygon| ==> fill.requires(i)
  {
    match DrawOrder(s.polygon, moving)
    case Err(e) => Err(e)
    case Ok(order) =>
      DrawOrderInRange(s.polygon, moving);
      Prefixed([Clear], Concat(Layers(fill, order), Ok(Markers(s.pos, s.radius))))
  }

  /** What `draw` leaves on the canvas. */
  function DrawSpec(s: Scene, moving: Option<nat>): Result<seq<Record>>
    requires ValidScene(s)
  {
    Frame(s, moving, ShapeFill(s))
  }

  /** One pass of `draw`'s redraw loop: the quad's corners and edges, then
      its fill. */
  method DrawShape(s: Scene, ind: nat, ghost fill: nat --> Result<seq<Record>>) returns (r: Result<seq<Record>>)
    requires ValidScene(s) && ind < |s.polygon|
    requires forall i: nat :: i < |s.polygon| ==> fill.requires(i)
    requires forall i: nat {:trigger ShapeRaster(s, i)} :: i < |s.polygon| ==> fill(i) == ShapeRaster(s, i)
    ensures r == fill(ind)
  {
    var vertices := GetRectVertices(s.polygon[ind], s.pos);
    var edges := CalcEdge(vertices);
    var rect := Rect(ind, s.polygon[ind], vertices, edges);
    assert rect == RectOf(s, ind);
    assert fill(ind) == ShapeRaster(s, ind) == RectRaster(rect, s.colors, s.eps);
    r := DrawRect(rect, s.colors, s.eps);
  }

  /** `draw`'s loop over the redraw list: each quad's fill in turn, stopping
      at the first failure. `fill` is the scene's fills by quad index. */
  method DrawLayers(s: Scene, order: seq<nat>, ghost fill: nat --> Result<seq<Record>>) returns (r: Result<seq<Record>>)
    requires ValidScene(s)
    requires forall k :: 0 <= k < |order| ==> order[k] < |s.polygon|
    requires forall i: nat :: i < |s.polygon| ==> fill.requires(i)
    requires forall i: nat {:trigger ShapeRaster(s, i)} :: i < |s.polygon| ==> fill(i) == ShapeRaster(s, i)
    ensures r == Layers(fill, order)
  {
    var trace := [];
    PrefixedNothing(Layers(fill, order));
    for i := 0 to |order|
      invariant Layers(fill, order) == Prefixed(trace, Layers(fill, order[i..]))
    {
      var shape := DrawShape(s, order[i], fill);
      assert order[i..][1..] == order[i + 1..];
      assert Layers(fill, order[i..]) == Concat(shape, Layers(fill, order[i + 1..]));
      if shape.Err? {
        return Err(shape.error);
      }
      PrefixedTwice(trace, shape.value, Layers(fill, order[i + 1..]));
      trace := trace + shape.value;
    }
    assert order[|order|..] == [];
    assert trace + [] == trace;
    r := Ok(trace);
  }

  /** `draw`'s last loop: one marker per vertex, in index order. */
  method DrawMarkers(pos: seq<Point>, radius: real) returns (ms: seq<Record>)
    ensures ms == Markers(pos, radius)
  {
    ms := [];
    for i := 0 to |pos|
      invariant ms == Markers(pos, radius)[..i]
    {
      ms := ms + [Marker(i, pos[i].x, pos[i].y, radius)];
    }
  }

  /** Once the redraw order is known, a redraw is that order's fills
      between the clearing and the markers. */
  lemma FrameOf(s: Scene, moving: Option<nat>, fill: nat --> Result<seq<Record>>, order: seq<nat>)
    requires forall i: nat :: i < |s.polygon| ==> fill.requires(i)
    requires DrawOrder(s.polygon, moving) == Ok(order)
    ensures forall k :: 0 <= k < |order| ==> fill.requires(order[k])
    ensures Frame(s, moving, fill) ==
      Prefixed([Clear], Concat(Layers(fill, order), Ok(Markers(s.pos, s.radius))))
  {
    DrawOrderInRange(s.polygon, moving);
  }

  /** `ShapeFill` is defined on every quad index and gives that quad's
      fill. */
  lemma ShapeFillMatches(s: Scene)
    requires ValidScene(s)
    ensures forall i: nat :: i < |s.polygon| ==> ShapeFill(s).requires(i)
    ensures forall i: nat {:trigger ShapeRaster(s, i)} :: i < |s.polygon| ==> ShapeFill(s)(i) == ShapeRaster(s, i)
  {
  }

  /** The body of `draw`, with the quad fills kept abstract as `fill`. */
  method DrawWith(s: Scene, moving: Option<nat>, ghost fill: nat --> Result<seq<Record>>) returns (r: Result<seq<Record>>)
    requires ValidScene(s)
    requires forall i: nat :: i < |s.polygon| ==> fill.requires(i)
    requires forall i: nat {:trigger ShapeRaster(s, i)} :: i < |s.polygon| ==> fill(i) == ShapeRaster(s, i)
    ensures r == Frame(s, moving, fill)
  {
    var order: seq<nat>;
    if moving.None? {
      order := Range(|s.polygon|);
    } else {
      var redraw := RedrawOrder(s.polygon, moving.value);
      if redraw.Err? {
        return Err(redraw.error);
      }
      order := redraw.value;
    }
    FrameOf(s, moving, fill, order);
    DrawOrderInRange(s.polygon, moving);
    var layers := DrawLayers(s, order, fill);
    if layers.Err? {
      return Err(layers.error);
    }
    var markers := DrawMarkers(s.pos, s.radius);
    assert [Clear] + (layers.value + markers) == [Clear] + layers.value + markers;
    r := Ok([Clear] + layers.value + markers);
  }

  /** `draw`: clear the canvas, fill the quads in the redraw order, then
      draw every vertex marker. */
  method Draw(s: Scene, moving: Option<nat>) returns (r: Result<seq<Record>>)
    requires ValidScene(s)
    ensures r == DrawSpec(s, moving)
  {
    ShapeFillMatches(s);
    r := DrawWith(s, moving, ShapeFill(s));
  }

  /** Every record a fill draws for quad `i` is a span of quad `i`. */
  predicate OwnSpans(fill: nat --> Result<seq<Record>>, i: nat)
    requires fill.requires(i)
  {
    fill(i).Ok? ==> forall k :: 0 <= k < |fill(i).value| ==> fill(i).value[k].Span? && fill(i).value[k].shape == i
  }

  /** Layering fills that each draw only their own quad's spans draws only
      spans of the listed quads. */
  lemma {:induction false} LayersShapes(fill: nat --> Result<seq<Record>>, order: seq<nat>)
    requires forall k :: 0 <= k < |order| ==> fill.requires(order[k]) && OwnSpans(fill, order[k])
    ensures var r := Layers(fill, order);
      r.Ok? ==> forall p :: 0 <= p < |r.value| ==> r.value[p].Span? && r.value[p].shape in order
    decreases |order|
  {
    if |order| > 0 {
      var tail := order[1..];
      LayersShapes(fill, tail);
      var first, rest := fill(order[0]), Layers(fill, tail);
      if first.Ok? && rest.Ok? {
        var all := first.value + rest.value;
        assert Layers(fill, order) == Ok(all);
        forall p | 0 <= p < |all|
          ensures all[p].Span? && all[p].shape in order
        {
          if p >= |first.value| {
            var p' := p - |first.value|;
            assert all[p] == rest.value[p'];
            var l :| 0 <= l < |tail| && tail[l] == rest.value[p'].shape;
            assert order[l + 1] == tail[l];
          }
        }
      }
    }
  }

  /** Layering fills that each draw only their own quad's spans, in an order
      along which `key` never decreases, draws spans along which `key` of
      their quads never decreases either. */
  lemma {:induction false} LayersOrdered(fill: nat --> Result<seq<Record>>, order: seq<nat>, key: nat -> int)
    requires forall k :: 0 <= k < |order| ==> fill.requires(order[k]) && OwnSpans(fill, order[k])
    requires forall j, l :: 0 <= j < l < |order| ==> key(order[j]) <= key(order[l])
    ensures var r := Layers(fill, order);
      r.Ok? ==> forall p, q :: 0 <= p < q < |r.value| ==>
        r.value[p].Span? && r.value[q].Span? && key(r.value[p].shape) <= key(r.value[q].shape)
    decreases |order|
  {
    if |order| > 0 {
      var tail := order[1..];
      LayersOrdered(fill, tail, key);
      LayersShapes(fill, tail);
      var first, rest := fill(order[0]), Layers(fill, tail);
      if first.Ok? && rest.Ok? {
        var all := first.value + rest.value;
        assert Layers(fill, order) == Ok(all);
        forall p, q | 0 <= p < q < |all|
          ensures all[p].Span? && all[q].Span? && key(all[p].shape) <= key(all[q].shape)
        {
          if q < |first.value| {
          } else if p < |first.value| {
            var q' := q - |first.value|;
            assert all[q] == rest.value[q'];
            var l :| 0 <= l < |tail| && tail[l] == rest.value[q'].shape;
            assert order[l + 1] == tail[l];
          } else {
            assert all[p] == rest.value[p - |first.value|];
            assert all[q] == rest.value[q - |first.value|];
          }
        }
      }
    }
  }

  /** The rank of quad `i` in a redraw: its index on a full redraw; after
      vertex `m` moved, its index, raised above every quad without `m` when
      the quad holds `m`. */
  function DrawKey(polygon: seq<seq<nat>>, moving: Option<nat>, i: nat): (k: int)
    ensures moving.None? ==> k == i
    ensures moving.Some? && i < |polygon| ==>
      (moving.value in polygon[i] <==> k >= |polygon|)
  {
    match moving
    case None => i
    case Some(m) => (if i < |polygon| && m in polygon[i] then |polygon| else 0) + i
  }

  /** Every redraw order ranks its quads in increasing `DrawKey`. */
  lemma DrawOrderKeyed(polygon: seq<seq<nat>>, moving: Option<nat>)
    ensures var r := DrawOrder(polygon, moving);
      r.Ok? ==> forall j, l :: 0 <= j < l < |r.value| ==>
        DrawKey(polygon, moving, r.value[j]) < DrawKey(polygon, moving, r.value[l])
  {
    if moving.Some? {
      DrawOrderGroups(polygon, moving.value);
    }
  }

  /** Each quad's fill draws only spans of that quad. */
  lemma ShapeFillOwnSpans(s: Scene, i: nat)
    requires ValidScene(s) && i < |s.polygon|
    ensures ShapeFill(s).requires(i) && OwnSpans(ShapeFill(s), i)
  {
    var rect := RectOf(s, i);
    RectRasterWellFormed(rect, s.colors, s.eps);
    assert ShapeFill(s)(i) == RectRaster(rect, s.colors, s.eps);
  }

  /** A successful redraw is the clearing, then the fills of the redraw
      order, then the marker of every vertex in index order. */
  lemma FrameLayout(s: Scene, moving: Option<nat>, fill: nat --> Result<seq<Record>>)
    requires forall i: nat :: i < |s.polygon| ==> fill.requires(i)
    ensures var r := Frame(s, moving, fill);
      r.Ok? ==> (|r.value| >= 1 + |s.pos| && r.value[0] == Clear &&
        r.value[|r.value| - |s.pos|..] == Markers(s.pos, s.radius))
    ensures var r := Frame(s, moving, fill);
      r.Ok? ==> (DrawOrder(s.polygon, moving).Ok? &&
        (forall k :: 0 <= k < |DrawOrder(s.polygon, moving).value| ==>
          fill.requires(DrawOrder(s.polygon, moving).value[k])) &&
        Layers(fill, DrawOrder(s.polygon, moving).value).Ok? &&
        r.value[1..|r.value| - |s.pos|] == Layers(fill, DrawOrder(s.polygon, moving).value).value)
  {
    var order := DrawOrder(s.polygon, moving);
    if order.Ok? && Frame(s, moving, fill).Ok? {
      FrameOf(s, moving, fill, order.value);
      var spans := Layers(fill, order.value).value;
      var r := [Clear] + spans + Markers(s.pos, s.radius);
      assert [Clear] + (spans + Markers(s.pos, s.radius)) == r;
      assert Frame(s, moving, fill) == Ok(r);
      assert r[1..|r| - |s.pos|] == spans;
      assert r[|r| - |s.pos|..] == Markers(s.pos, s.radius);
    }
  }

  /** Between the clearing and the markers, a successful redraw draws only
      spans of existing quads, in increasing `DrawKey` of their quads,
      whenever each fill draws only its own quad's spans. */
  lemma FrameSpans(s: Scene, moving: Option<nat>, fill: nat --> Result<seq<Record>>)
    requires forall i: nat :: i < |s.polygon| ==> fill.requires(i) && OwnSpans(fill, i)
    ensures var r := Frame(s, moving, fill);
      r.Ok? ==> forall p :: 1 <= p < |r.value| - |s.pos| ==>
        r.value[p].Span? && r.value[p].shape < |s.polygon|
    ensures var r := Frame(s, moving, fill);
      r.Ok? ==> forall p, q :: 1 <= p < q < |r.value| - |s.pos| ==>
        r.value[p].Span? && r.value[q].Span? &&
        DrawKey(s.polygon, moving, r.value[p].shape) <= DrawKey(s.polygon, moving, r.value[q].shape)
  {
    FrameLayout(s, moving, fill);
    var r := Frame(s, moving, fill);
    if r.Ok? {
      var order := DrawOrder(s.polygon, moving).value;
      DrawOrderKeyed(s.polygon, moving);
      DrawOrderInRange(s.polygon, moving);
      var key := (i: nat) => DrawKey(s.polygon, moving, i);
      LayersShapes(fill, order);
      LayersOrdered(fill, order, key);
      var spans := Layers(fill, order).value;
      forall p | 1 <= p < |r.value| - |s.pos|
        ensures r.value[p].Span? && r.value[p].shape < |s.polygon|
      {
        assert r.value[p] == spans[p - 1];
      }
      forall p, q | 1 <= p < q < |r.value| - |s.pos|
        ensures r.value[p].Span? && r.value[q].Span? &&
          DrawKey(s.polygon, moving, r.value[p].shape) <= DrawKey(s.polygon, moving, r.value[q].shape)
      {
        assert r.value[p] == spans[p - 1] && r.value[q] == spans[q - 1];
      }
    }
  }

  /** `draw`'s output is the clearing, then spans of existing quads in
      increasing `DrawKey` of their quads, then the marker of every vertex in
      index order. */
  lemma DrawLayout(s: Scene, moving: Option<nat>)
    requires ValidScene(s)
    ensures var r := DrawSpec(s, moving);
      r.Ok? ==> (|r.value| >= 1 + |s.pos| && r.value[0] == Clear &&
        r.value[|r.value| - |s.pos|..] == Markers(s.pos, s.radius))
    ensures var r := DrawSpec(s, moving);
      r.Ok? ==> forall p :: 1 <= p < |r.value| - |s.pos| ==>
        r.value[p].Span? && r.value[p].shape < |s.polygon|
    ensures var r := DrawSpec(s, moving);
      r.Ok? ==> forall p, q :: 1 <= p < q < |r.value| - |s.pos| ==>
        r.value[p].Span? && r.value[q].Span? &&
        DrawKey(s.polygon, moving, r.value[p].shape) <= DrawKey(s.polygon, moving, r.value[q].shape)
  {
    forall i: nat | i < |s.polygon|
      ensures ShapeFill(s).requires(i) && OwnSpans(ShapeFill(s), i)
    {
      ShapeFillOwnSpans(s, i);
    }
    FrameLayout(s, moving, ShapeFill(s));
    FrameSpans(s, moving, ShapeFill(s));
  }

  /** On a full redraw the quads' spans come in quad index order; after
      vertex `m` moved, no span of a quad without `m` follows a span of a
      quad holding `m`. */
  lemma MovedShapesOnTop(s: Scene, moving: Option<nat>)
    requires ValidScene(s)
    ensures var r := DrawSpec(s, moving);
      r.Ok? ==> forall p, q :: 1 <= p < q < |r.value| - |s.pos| ==>
        r.value[p].Span? && r.value[q].Span? &&
        r.value[p].shape < |s.polygon| && r.value[q].shape < |s.polygon| &&
        (moving.None? ==> r.value[p].shape <= r.value[q].shape) &&
        (moving.Some? ==>
          (moving.value in s.polygon[r.value[p].shape] ==> moving.value in s.polygon[r.value[q].shape]))
  {
    DrawLayout(s, moving);
  }

  /** The corners of every quad are different vertices. */
  predicate DistinctCorners(polygon: seq<seq<nat>>) {
    forall i, j, k :: 0 <= i < |polygon| && 0 <= j < k < |polygon[i]| ==> polygon[i][j] != polygon[i][k]
  }

  /** Layering fills that can fail only on an odd crossing count fails, if
      at all, on an odd crossing count. */
  lemma {:induction false} LayersOnlyOdd(fill: nat --> Result<seq<Record>>, order: seq<nat>)
    requires forall k :: 0 <= k < |order| ==>
      fill.requires(order[k]) && (fill(order[k]).Err? ==> fill(order[k]).error == OddCrossings)
    ensures Layers(fill, order).Err? ==> Layers(fill, order).error == OddCrossings
    decreases |order|
  {
    if |order| > 0 {
      LayersOnlyOdd(fill, order[1..]);
    }
  }

  /** When every quad has four different corners, a redraw fails only on an
      odd crossing count, or, after a vertex moved, when no quad holds it;
      a malformed neighbour list never happens. */
  lemma DrawErrors(s: Scene, moving: Option<nat>)
    requires ValidScene(s) && DistinctCorners(s.polygon)
    ensures var r := DrawSpec(s, moving);
      r.Err? ==> r.error == OddCrossings || r.error == NoAffectedShape
    ensures var r := DrawSpec(s, moving);
      r.Err? && r.error == NoAffectedShape ==>
        moving.Some? && forall i :: 0 <= i < |s.polygon| ==> moving.value !in s.polygon[i]
  {
    var order := DrawOrder(s.polygon, moving);
    if moving.Some? {
      DrawOrderFails(s.polygon, moving.value);
    }
    if order.Ok? {
      var fill := ShapeFill(s);
      FrameOf(s, moving, fill, order.value);
      DrawOrderInRange(s.polygon, moving);
      forall k | 0 <= k < |order.value|
        ensures fill.requires(order.value[k])
        ensures fill(order.value[k]).Err? ==> fill(order.value[k]).error == OddCrossings
      {
        var i := order.value[k];
        var rect := RectOf(s, i);
        assert DistinctIds(rect.vertices);
        QuadRasterOnlyOdd(rect, s.colors, s.eps);
        assert fill(i) == RectRaster(rect, s.colors, s.eps);
      }
      LayersOnlyOdd(fill, order.value);
    }
  }
}
