/** Filling one quad row by row (`getTopBottom` and `drawRect`). The drawing
    surface is modelled as the trace of calls the filler makes on it. */
module Raster {
  import opened Geometry
  import opened Sorting
  import opened Edges
  import opened Extreme
  import opened Intersection

  /** One call on the drawing surface: clearing it, a horizontal span drawn
      for shape `shape`, or the marker of a vertex. */
  datatype Record =
    | Clear
    | Span(shape: nat, y: real, x1: real, x2: real, color: Color)
    | Marker(vertex: nat, x: real, y: real, radius: real)

  /** The source's `rect`: a shape's index, its vertex indices, its corners
      and its edges. */
  datatype Rect = Rect(index: nat, vIndex: seq<nat>, vertices: seq<Vertex>, edges: seq<Edge>)

  /** The smallest corner height. */
  function TopOf(vs: seq<Vertex>): real
    requires |vs| > 0
  {
    if |vs| == 1 then vs[0].pos.y
    else Min(vs[|vs| - 1].pos.y, TopOf(vs[..|vs| - 1]))
  }

  /** The largest corner height. */
  function BottomOf(vs: seq<Vertex>): real
    requires |vs| > 0
  {
    if |vs| == 1 then vs[0].pos.y
    else Max(vs[|vs| - 1].pos.y, BottomOf(vs[..|vs| - 1]))
  }

  /** `TopOf` and `BottomOf` are the smallest and the largest corner height:
      every corner lies between them and some corner lies on each. */
  lemma {:induction false} TopBottomBounds(vs: seq<Vertex>)
    requires |vs| > 0
    ensures forall v :: v in vs ==> TopOf(vs) <= v.pos.y <= BottomOf(vs)
    ensures exists v :: v in vs && v.pos.y == TopOf(vs)
    ensures exists v :: v in vs && v.pos.y == BottomOf(vs)
  {
    if |vs| > 1 {
      var init := vs[..|vs| - 1];
      TopBottomBounds(init);
      assert vs == init + [vs[|vs| - 1]];
      var lo :| lo in init && lo.pos.y == TopOf(init);
      var hi :| hi in init && hi.pos.y == BottomOf(init);
      assert lo in vs && hi in vs;
    }
  }

  /** `getTopBottom`: the y-range of the corners. */
  method GetTopBottom(vs: seq<Vertex>) returns (top: real, bottom: real)
    requires |vs| > 0
    ensures top == TopOf(vs) && bottom == BottomOf(vs)
    ensures top <= bottom
    ensures forall v :: v in vs ==> top <= v.pos.y <= bottom
  {
    top := vs[0].pos.y;
    bottom := vs[0].pos.y;
    for i := 0 to |vs|
      invariant i == 0 ==> top == bottom == vs[0].pos.y
      invariant i > 0 ==> top == TopOf(vs[..i]) && bottom == BottomOf(vs[..i])
    {
      assert vs[..i + 1][..i] == vs[..i];
      top := Min(vs[i].pos.y, top);
      bottom := Max(vs[i].pos.y, bottom);
    }
    assert vs[..|vs|] == vs;
    TopBottomBounds(vs);
  }

  /** The spans of one row: crossings `(0, 1)`, `(2, 3)`, ... paired up. */
  function SpansOf(shape: nat, y: real, xs: seq<real>, color: Color): (spans: seq<Record>)
    requires |xs| % 2 == 0
  {
    seq(|xs| / 2, j requires 0 <= j < |xs| / 2 => Span(shape, y, xs[2 * j], xs[2 * j + 1], color))
  }

  /** The inner loop of `drawRect`: one span per pair of crossings. */
  method EmitSpans(shape: nat, y: real, xs: seq<real>, color: Color) returns (row: seq<Record>)
    requires |xs| % 2 == 0
    ensures row == SpansOf(shape, y, xs, color)
    ensures |row| == |xs| / 2
  {
    row := [];
    var i := 0;
    while i < |xs|
      invariant i % 2 == 0 && i <= |xs|
      invariant |row| == i / 2
      invariant forall j :: 0 <= j < i / 2 ==> row[j] == Span(shape, y, xs[2 * j], xs[2 * j + 1], color)
    {
      row := row + [Span(shape, y, xs[i], xs[i + 1], color)];
      i := i + 2;
    }
  }

  /** What one row of the fill draws: the crossings of the scanline paired
      into spans; an odd crossing count is an error. */
  function RowSpans(rect: Rect, color: Color, eps: real, y: real): Result<seq<Record>> {
    match IntersectionSpec(y, rect.edges, rect.vertices, eps)
    case Err(e) => Err(e)
    case Ok(xs) => if |xs| % 2 != 0 then Err(OddCrossings) else Ok(SpansOf(rect.index, y, xs, color))
  }

  /** A span drawn for shape `shape` in colour `color` on a row between `lo`
      and `hi`, running left to right. */
  predicate SpanWithin(rec: Record, shape: nat, color: Color, lo: real, hi: real) {
    rec.Span? && rec.shape == shape && rec.color == color && lo <= rec.y <= hi && rec.x1 <= rec.x2
  }

  /** The spans of one row lie on that row, run left to right, and follow
      one another without overlapping; a row fails exactly when its
      crossings fail or are odd in number. */
  lemma RowSpansWellFormed(rect: Rect, color: Color, eps: real, y: real)
    ensures var r := RowSpans(rect, color, eps, y);
      r.Ok? ==> forall k :: 0 <= k < |r.value| ==> SpanWithin(r.value[k], rect.index, color, y, y)
    ensures var r := RowSpans(rect, color, eps, y);
      r.Ok? ==> forall k, l :: 0 <= k < l < |r.value| ==> r.value[k].x2 <= r.value[l].x1
    ensures var xs := IntersectionSpec(y, rect.edges, rect.vertices, eps);
      RowSpans(rect, color, eps, y).Err? <==> xs.Err? || |xs.value| % 2 == 1
    ensures var xs := IntersectionSpec(y, rect.edges, rect.vertices, eps);
      RowSpans(rect, color, eps, y).Ok? ==> 2 * |RowSpans(rect, color, eps, y).value| == |xs.value|
  {
    var xs := IntersectionSpec(y, rect.edges, rect.vertices, eps);
    if xs.Ok? && |xs.value| % 2 == 0 {
      var spans := SpansOf(rect.index, y, xs.value, color);
      assert Sorted(xs.value);
      forall k, l | 0 <= k < l < |spans|
        ensures spans[k].x2 <= spans[l].x1
      {
        assert 2 * k + 1 < 2 * l;
      }
    }
  }

  /** How many rows `top, top + 1, ...` are not below `bottom`. */
  function RowCount(top: real, bottom: real): nat {
    if top > bottom then 0 else (bottom - top).Floor + 1
  }

  /** Row `i` is visited exactly when `top + i` is not below `bottom`. */
  lemma RowVisited(top: real, bottom: real, i: nat)
    ensures top + i as real <= bottom <==> i < RowCount(top, bottom)
  {
    if top + i as real <= bottom {
      assert (i as real) <= bottom - top;
      assert i <= (bottom - top).Floor;
    } else if top <= bottom {
      assert (bottom - top).Floor as real <= bottom - top < i as real;
    }
  }

  /** Stepping one row down leaves one row fewer. */
  lemma RowCountStep(y: real, bottom: real)
    requires y <= bottom
    ensures RowCount(y + 1.0, bottom) == RowCount(y, bottom) - 1
  {
    assert bottom - y == (bottom - (y + 1.0)) + 1.0;
  }

  /** The height of the `i`-th row from `y`. */
  function RowY(y: real, i: nat): real {
    y + i as real
  }

  /** The `n` rows `y, y + 1, ..., y + n - 1`, each drawn by `row`, one after
      the other; the first failing row decides the error. */
  function Rows(row: real -> Result<seq<Record>>, y: real, n: nat): Result<seq<Record>>
    decreases n
  {
    if n == 0 then Ok([])
    else Concat(row(y), Rows(row, y + 1.0, n - 1))
  }

  /** When every row draws only spans of this shape in this colour on that
      row, running left to right, the raster of `n` rows from `y` draws only
      such spans on those rows, and the rows come from top to bottom. */
  lemma {:induction false} RowsWellFormed(row: real -> Result<seq<Record>>, shape: nat, color: Color, y: real, n: nat)
    requires forall y' :: row(y').Ok? ==>
      forall k :: 0 <= k < |row(y').value| ==> SpanWithin(row(y').value[k], shape, color, y', y')
    ensures var r := Rows(row, y, n);
      r.Ok? ==> forall k :: 0 <= k < |r.value| ==>
        SpanWithin(r.value[k], shape, color, y, y + (n - 1) as real)
    ensures var r := Rows(row, y, n);
      r.Ok? ==> forall k, l :: 0 <= k < l < |r.value| ==> r.value[k].y <= r.value[l].y
    decreases n
  {
    if n > 0 {
      RowsWellFormed(row, shape, color, y + 1.0, n - 1);
      var first := row(y);
      var rest := Rows(row, y + 1.0, n - 1);
      if first.Ok? && rest.Ok? {
        var all := first.value + rest.value;
        assert Rows(row, y, n) == Ok(all);
        forall k | 0 <= k < |all|
          ensures SpanWithin(all[k], shape, color, y, y + (n - 1) as real)
        {
          if k >= |first.value| {
            assert all[k] == rest.value[k - |first.value|];
          }
        }
        forall k, l | 0 <= k < l < |all|
          ensures all[k].y <= all[l].y
        {
          if l < |first.value| {
          } else if k < |first.value| {
            assert all[l] == rest.value[l - |first.value|];
          } else {
            assert all[k] == rest.value[k - |first.value|];
            assert all[l] == rest.value[l - |first.value|];
          }
        }
      }
    }
  }

  /** The raster of `n` rows from `y` fails exactly when one of those rows
      fails, and then with the error of the first failing one. */
  lemma {:induction false} RowsFail(row: real -> Result<seq<Record>>, y: real, n: nat)
    ensures Rows(row, y, n).Err? <==> exists i :: 0 <= i < n && row(RowY(y, i)).Err?
    ensures forall i :: 0 <= i < n && row(RowY(y, i)).Err? ==>
      (forall j :: 0 <= j < i ==> row(RowY(y, j)).Ok?) ==> Rows(row, y, n) == row(RowY(y, i))
    decreases n
  {
    if n > 0 {
      RowsFail(row, y + 1.0, n - 1);
      assert RowY(y, 0) == y;
      forall i | 1 <= i < n
        ensures row(RowY(y, i)) == row(RowY(y + 1.0, i - 1))
      {
        assert RowY(y, i) == RowY(y + 1.0, i - 1);
      }
      if row(y).Ok? {
        if Rows(row, y, n).Err? {
          var i :| 0 <= i < n - 1 && row(RowY(y + 1.0, i)).Err?;
          assert row(RowY(y, i + 1)).Err?;
        }
        forall i | 0 <= i < n && row(RowY(y, i)).Err? && (forall j :: 0 <= j < i ==> row(RowY(y, j)).Ok?)
          ensures Rows(row, y, n) == row(RowY(y, i))
        {
          var below := y + 1.0;
          forall j | 0 <= j < i - 1
            ensures row(RowY(below, j)).Ok?
          {
            assert row(RowY(y, j + 1)).Ok?;
          }
        }
      }
    }
  }

  /** The rows of a quad's fill, as a function of the row's height. */
  function RowFill(rect: Rect, color: Color, eps: real): real -> Result<seq<Record>> {
    y => RowSpans(rect, color, eps, y)
  }

  /** What `drawRect` draws: every row from the top corner down to the bottom
      one, in the colour of the shape's first listed vertex. */
  function RectRaster(rect: Rect, colors: seq<Color>, eps: real): Result<seq<Record>>
    requires |rect.vertices| > 0 && |rect.vIndex| > 0 && rect.vIndex[0] < |colors|
  {
    var top := TopOf(rect.vertices);
    Rows(RowFill(rect, colors[rect.vIndex[0]], eps), top, RowCount(top, BottomOf(rect.vertices)))
  }

  /** Every row of a quad's fill draws spans of that quad on that row. */
  lemma RowFillWellFormed(rect: Rect, color: Color, eps: real)
    ensures var row := RowFill(rect, color, eps);
      forall y :: row(y).Ok? ==>
        forall k :: 0 <= k < |row(y).value| ==> SpanWithin(row(y).value[k], rect.index, color, y, y)
  {
    forall y | RowFill(rect, color, eps)(y).Ok?
      ensures forall k :: 0 <= k < |RowFill(rect, color, eps)(y).value| ==>
        SpanWithin(RowFill(rect, color, eps)(y).value[k], rect.index, color, y, y)
    {
      RowSpansWellFormed(rect, color, eps, y);
    }
  }

  /** A filled quad is a stack of left-to-right spans of that quad, in the
      colour of its first vertex, on the rows from its top corner to its
      bottom one, top first. */
  lemma RectRasterWellFormed(rect: Rect, colors: seq<Color>, eps: real)
    requires |rect.vertices| > 0 && |rect.vIndex| > 0 && rect.vIndex[0] < |colors|
    ensures var r := RectRaster(rect, colors, eps);
      r.Ok? ==> forall k :: 0 <= k < |r.value| ==>
        SpanWithin(r.value[k], rect.index, colors[rect.vIndex[0]], TopOf(rect.vertices), BottomOf(rect.vertices))
    ensures var r := RectRaster(rect, colors, eps);
      r.Ok? ==> forall k, l :: 0 <= k < l < |r.value| ==> r.value[k].y <= r.value[l].y
  {
    var color := colors[rect.vIndex[0]];
    var row := RowFill(rect, color, eps);
    var top, bottom := TopOf(rect.vertices), BottomOf(rect.vertices);
    var n := RowCount(top, bottom);
    RowFillWellFormed(rect, color, eps);
    RowsWellFormed(row, rect.index, color, top, n);
    assert RectRaster(rect, colors, eps) == Rows(row, top, n);
    assert top + (n - 1) as real <= bottom by {
      if n > 0 {
        RowVisited(top, bottom, n - 1);
      }
    }
  }

  /** A quad's fill fails exactly when one of its rows from the top corner
      to the bottom one does. */
  lemma RectRasterFails(rect: Rect, colors: seq<Color>, eps: real)
    requires |rect.vertices| > 0 && |rect.vIndex| > 0 && rect.vIndex[0] < |colors|
    ensures RectRaster(rect, colors, eps).Err? <==>
      exists i :: 0 <= i < RowCount(TopOf(rect.vertices), BottomOf(rect.vertices)) &&
        RowSpans(rect, colors[rect.vIndex[0]], eps, RowY(TopOf(rect.vertices), i)).Err?
  {
    var color := colors[rect.vIndex[0]];
    var row := RowFill(rect, color, eps);
    var top := TopOf(rect.vertices);
    var n := RowCount(top, BottomOf(rect.vertices));
    RowsFail(row, top, n);
    assert RectRaster(rect, colors, eps) == Rows(row, top, n);
    if RectRaster(rect, colors, eps).Err? {
      var i :| 0 <= i < n && row(RowY(top, i)).Err?;
      assert RowSpans(rect, color, eps, RowY(top, i)).Err?;
      assert exists i :: (0 <= i < RowCount(TopOf(rect.vertices), BottomOf(rect.vertices)) &&
        RowSpans(rect, colors[rect.vIndex[0]], eps, RowY(TopOf(rect.vertices), i)).Err?);
    } else {
      forall i | 0 <= i < n
        ensures RowSpans(rect, color, eps, RowY(top, i)).Ok?
      {
        assert row(RowY(top, i)).Ok?;
      }
    }
  }

  /** When no row can fail except for an odd crossing count, neither can
      the raster. */
  lemma {:induction false} RowsOnlyOdd(row: real -> Result<seq<Record>>, y: real, n: nat)
    requires forall y' :: row(y').Err? ==> row(y').error == OddCrossings
    ensures Rows(row, y, n).Err? ==> Rows(row, y, n).error == OddCrossings
    decreases n
  {
    if n > 0 {
      RowsOnlyOdd(row, y + 1.0, n - 1);
    }
  }

  /** The fill of a quad with distinct corners and its own edges can fail
      only on an odd crossing count, never on a malformed neighbour list. */
  lemma QuadRasterOnlyOdd(rect: Rect, colors: seq<Color>, eps: real)
    requires |rect.vertices| == POLY_EDGES && DistinctIds(rect.vertices) && rect.edges == EdgesOf(rect.vertices)
    requires |rect.vIndex| > 0 && rect.vIndex[0] < |colors|
    ensures RectRaster(rect, colors, eps).Err? ==> RectRaster(rect, colors, eps).error == OddCrossings
  {
    var row := RowFill(rect, colors[rect.vIndex[0]], eps);
    forall y' | row(y').Err?
      ensures row(y').error == OddCrossings
    {
      QuadIntersectionOk(rect.vertices, y', eps);
    }
    var top := TopOf(rect.vertices);
    RowsOnlyOdd(row, top, RowCount(top, BottomOf(rect.vertices)));
  }

  /** One pass of the row loop of `drawRect`: the crossings at height `y`,
      drawn as spans. */
  method DrawRow(rect: Rect, color: Color, eps: real, y: real) returns (r: Result<seq<Record>>)
    ensures r == RowSpans(rect, color, eps, y)
    ensures r.Ok? ==> forall i :: 0 <= i < |r.value| ==> r.value[i].x1 <= r.value[i].x2
  {
    var intersect := CalcIntersection(y, rect.edges, rect.vertices, eps);
    if intersect.Err? {
      return Err(intersect.error);
    }
    var xs := intersect.value;
    if |xs| % 2 != 0 {
      return Err(OddCrossings);
    }
    var row := EmitSpans(rect.index, y, xs, color);
    r := Ok(row);
  }


  /** One row of a raster: a failing row ends it with its error, a drawn
      row extends the trace. */
  lemma RowsStep(row: real -> Result<seq<Record>>, y: real, n: nat, whole: Result<seq<Record>>, trace: seq<Record>)
    requires n > 0 && whole == Prefixed(trace, Rows(row, y, n))
    ensures row(y).Err? ==> whole == Err(row(y).error)
    ensures row(y).Ok? ==> whole == Prefixed(trace + row(y).value, Rows(row, y + 1.0, n - 1))
  {
    if row(y).Ok? {
      PrefixedTwice(trace, row(y).value, Rows(row, y + 1.0, n - 1));
    }
  }

  /** The row loop of `drawRect`: rows `top, top + 1, ...` while not below
      `bottom`, each drawn as `fill` says. */
  method DrawRows(rect: Rect, color: Color, eps: real, top: real, bottom: real, ghost fill: real -> Result<seq<Record>>)
    returns (r: Result<seq<Record>>)
    requires forall y {:trigger RowSpans(rect, color, eps, y)} :: fill(y) == RowSpans(rect, color, eps, y)
    ensures r == Rows(fill, top, RowCount(top, bottom))
  {
    var trace: seq<Record> := [];
    ghost var whole := Rows(fill, top, RowCount(top, bottom));
    var y := top;
    PrefixedNothing(whole);
    while y <= bottom
      invariant whole == Prefixed(trace, Rows(fill, y, RowCount(y, bottom)))
      decreases RowCount(y, bottom)
    {
      RowCountStep(y, bottom);
      RowsStep(fill, y, RowCount(y, bottom), whole, trace);
      var row := DrawRow(rect, color, eps, y);
      if row.Err? {
        return Err(row.error);
      }
      trace := trace + row.value;
      y := y + 1.0;
    }
    assert trace + [] == trace;
    r := Ok(trace);
  }

  /** `drawRect`. */
  method DrawRect(rect: Rect, colors: seq<Color>, eps: real) returns (r: Result<seq<Record>>)
    requires |rect.vertices| > 0 && |rect.vIndex| > 0 && rect.vIndex[0] < |colors|
    ensures r == RectRaster(rect, colors, eps)
  {
    var top, bottom := GetTopBottom(rect.vertices);
    r := DrawRows(rect, colors[rect.vIndex[0]], eps, top, bottom, RowFill(rect, colors[rect.vIndex[0]], eps));
  }
}
