/** The vertex-buffer layout of the WebGL variant: each quad becomes two
    triangles of interleaved `x, y, r, g, b` records, and the border becomes
    a fixed list of `x, y` pairs. The element type is left generic: the
    loaders only copy values. A position entry holds at least `x, y`, a
    colour entry at least `r, g, b`. */
module BufferLayout {

  /** The corners of a quad in the order the two triangles use them:
      `0, 1, 2` and then `0, 2, 3`. */
  const FAN_ORDER: seq<nat> := [0, 1, 2, 0, 2, 3]

  /** Values per emitted vertex: two position values, three colour values. */
  const STRIDE: nat := 5

  /** Values per quad: six emitted vertices of five values each. */
  const QUAD_VALUES: nat := 30

  /** The vertex indices the border lines visit, in order. */
  const BORDER_ORDER: seq<nat> := [4, 5, 8, 4, 8, 7, 4, 0, 1, 4, 3, 0, 4, 1, 5, 4, 1, 2, 5, 4, 7, 3, 4, 7, 6, 3]

  /** Vertex `v` has a position with `x, y` and a colour with `r, g, b`. */
  predicate HasRecord<T>(pos: seq<seq<T>>, color: seq<seq<T>>, v: nat) {
    v < |pos| && v < |color| && |pos[v]| >= 2 && |color[v]| >= 3
  }

  /** Every quad has at least four corners, each naming a vertex with a
      position and a colour. */
  predicate Loadable<T>(polygon: seq<seq<nat>>, pos: seq<seq<T>>, color: seq<seq<T>>) {
    forall p :: 0 <= p < |polygon| ==>
      |polygon[p]| >= 4 && forall c :: 0 <= c < |polygon[p]| ==> HasRecord(pos, color, polygon[p][c])
  }

  /** Value `f` (0 and 1 the position, 2 to 4 the colour) of the record of
      vertex `v`. */
  function Field<T>(pos: seq<seq<T>>, color: seq<seq<T>>, v: nat, f: nat): T
    requires HasRecord(pos, color, v) && f < STRIDE
  {
    if f < 2 then pos[v][f] else color[v][f - 2]
  }

  /** The record of vertex `v`, as the inner loop pushes it. */
  function VertexRecord<T>(pos: seq<seq<T>>, color: seq<seq<T>>, v: nat): seq<T>
    requires HasRecord(pos, color, v)
  {
    [pos[v][0], pos[v][1], color[v][0], color[v][1], color[v][2]]
  }

  /** The records of the first `n` fan corners of quad `poly`. */
  function QuadData<T>(pos: seq<seq<T>>, color: seq<seq<T>>, poly: seq<nat>, n: nat): seq<T>
    requires n <= |FAN_ORDER| && |poly| >= 4
    requires forall c :: 0 <= c < |poly| ==> HasRecord(pos, color, poly[c])
  {
    if n == 0 then []
    else QuadData(pos, color, poly, n - 1) + VertexRecord(pos, color, poly[FAN_ORDER[n - 1]])
  }

  /** The buffer contents for the first `n` quads. */
  function VertexData<T>(polygon: seq<seq<nat>>, pos: seq<seq<T>>, color: seq<seq<T>>, n: nat): seq<T>
    requires n <= |polygon| && Loadable(polygon, pos, color)
  {
    if n == 0 then []
    else VertexData(polygon, pos, color, n - 1) + QuadData(pos, color, polygon[n - 1], |FAN_ORDER|)
  }

  /** The records of the first `n` fan corners take five values each, and
      value `f` of record `j` is value `f` of corner `FAN_ORDER[j]`. */
  lemma {:induction false} QuadDataLayout<T>(pos: seq<seq<T>>, color: seq<seq<T>>, poly: seq<nat>, n: nat)
    requires n <= |FAN_ORDER| && |poly| >= 4
    requires forall c :: 0 <= c < |poly| ==> HasRecord(pos, color, poly[c])
    ensures |QuadData(pos, color, poly, n)| == STRIDE * n
    ensures forall j, f :: 0 <= j < n && 0 <= f < STRIDE ==>
      QuadData(pos, color, poly, n)[STRIDE * j + f] == Field(pos, color, poly[FAN_ORDER[j]], f)
  {
    if n > 0 {
      QuadDataLayout(pos, color, poly, n - 1);
      var before := QuadData(pos, color, poly, n - 1);
      var last := VertexRecord(pos, color, poly[FAN_ORDER[n - 1]]);
      forall j, f | 0 <= j < n && 0 <= f < STRIDE
        ensures (before + last)[STRIDE * j + f] == Field(pos, color, poly[FAN_ORDER[j]], f)
      {
        if j == n - 1 {
          assert (before + last)[STRIDE * j + f] == last[f];
        }
      }
    }
  }

  /** `loadVertices`' output for the first `n` quads takes thirty values per
      quad, and value `f` of record `j` in the block of quad `p` is value `f`
      of that quad's corner `FAN_ORDER[j]`. */
  lemma {:induction false} VertexDataLayout<T>(polygon: seq<seq<nat>>, pos: seq<seq<T>>, color: seq<seq<T>>, n: nat)
    requires n <= |polygon| && Loadable(polygon, pos, color)
    ensures |VertexData(polygon, pos, color, n)| == QUAD_VALUES * n
    ensures forall p, j, f :: 0 <= p < n && 0 <= j < |FAN_ORDER| && 0 <= f < STRIDE ==>
      VertexData(polygon, pos, color, n)[QUAD_VALUES * p + STRIDE * j + f] ==
        Field(pos, color, polygon[p][FAN_ORDER[j]], f)
  {
    if n > 0 {
      VertexDataLayout(polygon, pos, color, n - 1);
      QuadDataLayout(pos, color, polygon[n - 1], |FAN_ORDER|);
      var before := VertexData(polygon, pos, color, n - 1);
      var last := QuadData(pos, color, polygon[n - 1], |FAN_ORDER|);
      forall p, j, f | 0 <= p < n && 0 <= j < |FAN_ORDER| && 0 <= f < STRIDE
        ensures (before + last)[QUAD_VALUES * p + STRIDE * j + f] == Field(pos, color, polygon[p][FAN_ORDER[j]], f)
      {
        if p == n - 1 {
          assert (before + last)[QUAD_VALUES * p + STRIDE * j + f] == last[STRIDE * j + f];
        }
      }
    }
  }

  /** `loadVertices`: for every quad, the records of its two triangles. It
      only reads the position and colour tables. */
  method LoadVertices<T>(polygon: seq<seq<nat>>, pos: array<seq<T>>, color: array<seq<T>>) returns (out: seq<T>)
    requires Loadable(polygon, pos[..], color[..])
    ensures out == VertexData(polygon, pos[..], color[..], |polygon|)
    ensures |out| == QUAD_VALUES * |polygon|
    ensures forall p, j, f :: 0 <= p < |polygon| && 0 <= j < |FAN_ORDER| && 0 <= f < STRIDE ==>
      out[QUAD_VALUES * p + STRIDE * j + f] == Field(pos[..], color[..], polygon[p][FAN_ORDER[j]], f)
  {
    out := [];
    for p := 0 to |polygon|
      invariant out == VertexData(polygon, pos[..], color[..], p)
    {
      var poly := polygon[p];
      ghost var start := out;
      for i := 0 to |FAN_ORDER|
        invariant out == start + QuadData(pos[..], color[..], poly, i)
      {
        var v := poly[FAN_ORDER[i]];
        assert HasRecord(pos[..], color[..], v);
        out := out + [pos[v][0]];
        out := out + [pos[v][1]];
        out := out + [color[v][0]];
        out := out + [color[v][1]];
        out := out + [color[v][2]];
      }
    }
    VertexDataLayout(polygon, pos[..], color[..], |polygon|);
  }

  /** The buffer contents for the first `n` border entries. */
  function BorderData<T>(pos: seq<seq<T>>, n: nat): seq<T>
    requires n <= |BORDER_ORDER|
    requires forall m :: 0 <= m < |BORDER_ORDER| ==> BORDER_ORDER[m] < |pos| && |pos[BORDER_ORDER[m]]| >= 2
  {
    if n == 0 then []
    else BorderData(pos, n - 1) + [pos[BORDER_ORDER[n - 1]][0], pos[BORDER_ORDER[n - 1]][1]]
  }

  /** The border entries all name one of the first nine vertices, and the
      ninth is among them, so the border needs exactly nine vertices. */
  lemma BorderIndices()
    ensures forall m :: 0 <= m < |BORDER_ORDER| ==> BORDER_ORDER[m] < 9
    ensures exists m :: 0 <= m < |BORDER_ORDER| && BORDER_ORDER[m] == 8
  {
    assert BORDER_ORDER[2] == 8;
  }

  /** `loadBorderVertices`' output for the first `n` entries takes two values
      per entry: the `x` and the `y` of the vertex the entry names. */
  lemma {:induction false} BorderDataLayout<T>(pos: seq<seq<T>>, n: nat)
    requires n <= |BORDER_ORDER|
    requires forall m :: 0 <= m < |BORDER_ORDER| ==> BORDER_ORDER[m] < |pos| && |pos[BORDER_ORDER[m]]| >= 2
    ensures |BorderData(pos, n)| == 2 * n
    ensures forall m, f :: 0 <= m < n && 0 <= f < 2 ==> BorderData(pos, n)[2 * m + f] == pos[BORDER_ORDER[m]][f]
  {
    if n > 0 {
      BorderDataLayout(pos, n - 1);
      var before := BorderData(pos, n - 1);
      var v := BORDER_ORDER[n - 1];
      var last := [pos[v][0], pos[v][1]];
      forall m, f | 0 <= m < n && 0 <= f < 2
        ensures (before + last)[2 * m + f] == pos[BORDER_ORDER[m]][f]
      {
        if m == n - 1 {
          assert (before + last)[2 * m + f] == last[f];
        } else {
          assert (before + last)[2 * m + f] == before[2 * m + f];
        }
      }
    }
  }

  /** `loadBorderVertices`: the `x, y` pair of every border entry, in order.
      It reads only the position table, never the quads. */
  method LoadBorderVertices<T>(pos: array<seq<T>>) returns (out: seq<T>)
    requires pos.Length >= 9 && forall v :: 0 <= v < 9 ==> |pos[v]| >= 2
    ensures forall m :: 0 <= m < |BORDER_ORDER| ==> BORDER_ORDER[m] < pos.Length
    ensures out == BorderData(pos[..], |BORDER_ORDER|)
    ensures |out| == 2 * |BORDER_ORDER|
    ensures forall m, f :: 0 <= m < |BORDER_ORDER| && 0 <= f < 2 ==> out[2 * m + f] == pos[BORDER_ORDER[m]][f]
  {
    BorderIndices();
    out := [];
    for m := 0 to |BORDER_ORDER|
      invariant out == BorderData(pos[..], m)
    {
      var v := BORDER_ORDER[m];
      out := out + [pos[v][0]];
      out := out + [pos[v][1]];
    }
    BorderDataLayout(pos[..], |BORDER_ORDER|);
  }
}
