/** The drag interaction: pressing the mouse near a vertex captures it,
    moving the mouse drags the captured vertex and redraws, and releasing
    the button or leaving the canvas lets it go. */
module Interaction {
  import opened Geometry
  import opened Raster
  import opened Scheduler

  /** The pointer at (`px`, `py`) is within `range` of `p`. The source
      compares the Euclidean distance with the range; for a range that is
      not negative this is the comparison of the squares. */
  predicate Hit(p: Point, px: real, py: real, range: real) {
    (p.x - px) * (p.x - px) + (p.y - py) * (p.y - py) <= range * range
  }

  /** The first vertex from index `from` on that the pointer hits, if any. */
  function FirstHit(pos: seq<Point>, px: real, py: real, range: real, from: nat): (r: Option<nat>)
    decreases |pos| - from
    ensures r.Some? ==> (from <= r.value < |pos| && Hit(pos[r.value], px, py, range) &&
      forall j :: from <= j < r.value ==> !Hit(pos[j], px, py, range))
    ensures r.None? ==> forall j :: from <= j < |pos| ==> !Hit(pos[j], px, py, range)
  {
    if from >= |pos| then None
    else if Hit(pos[from], px, py, range) then Some(from)
    else FirstHit(pos, px, py, range, from + 1)
  }

  /** The canvas editor: the shapes, the vertex positions it drags and the
      vertex it has captured (`currentVertexIndex`). */
  class Editor {
    const polygon: seq<seq<nat>>
    const colors: seq<Color>
    const eps: real
    const validRange: real
    const vertexPos: array<Point>
    var current: Option<nat>

    /** Every quad names four existing vertices, every vertex has a colour,
        the pick range is not negative, and a captured vertex exists. */
    predicate Valid()
      reads this
    {
      |colors| == vertexPos.Length && validRange >= 0.0 &&
      (forall i :: 0 <= i < |polygon| ==>
        |polygon[i]| == POLY_EDGES && forall j :: 0 <= j < |polygon[i]| ==> polygon[i][j] < vertexPos.Length) &&
      (current.Some? ==> current.value < vertexPos.Length)
    }

    /** What a redraw reads right now. */
    function SceneOf(): (s: Scene)
      reads this, vertexPos
      requires Valid()
      ensures ValidScene(s) && s.pos == vertexPos[..] && s.polygon == polygon
    {
      Scene(polygon, vertexPos[..], colors, eps, validRange)
    }

    /** An editor over the given shapes and positions, with nothing
        captured (`currentVertexIndex = undefined`). */
    constructor(polygon: seq<seq<nat>>, pos: seq<Point>, colors: seq<Color>, eps: real, validRange: real)
      requires |colors| == |pos| && validRange >= 0.0
      requires forall i :: 0 <= i < |polygon| ==>
        |polygon[i]| == POLY_EDGES && forall j :: 0 <= j < |polygon[i]| ==> polygon[i][j] < |pos|
      ensures Valid() && fresh(vertexPos)
      ensures this.polygon == polygon && this.colors == colors && this.eps == eps && this.validRange == validRange
      ensures vertexPos[..] == pos && current == None
    {
      this.polygon := polygon;
      this.colors := colors;
      this.eps := eps;
      this.validRange := validRange;
      vertexPos := new Point[|pos|](i requires 0 <= i < |pos| => pos[i]);
      current := None;
    }

    /** `mousedown`: capture the lowest-indexed vertex within range of the
        pointer; when none is in range, keep whatever was captured. */
    method MouseDown(px: real, py: real)
      requires Valid()
      modifies this
      ensures Valid()
      ensures current == (match FirstHit(vertexPos[..], px, py, validRange, 0)
        case Some(i) => Some(i)
        case None => old(current))
    {
      for i := 0 to vertexPos.Length
        invariant forall j :: 0 <= j < i ==> !Hit(vertexPos[j], px, py, validRange)
        invariant current == old(current)
      {
        if (vertexPos[i].x - px) * (vertexPos[i].x - px) + (vertexPos[i].y - py) * (vertexPos[i].y - py)
          <= validRange * validRange
        {
          current := Some(i);
          FirstHitAt(vertexPos[..], px, py, validRange, 0, i);
          return;
        }
      }
      NoFirstHit(vertexPos[..], px, py, validRange, 0);
    }

    /** `mousemove`: without a captured vertex nothing happens; otherwise the
        captured vertex moves to the pointer, no other vertex moves, and the
        canvas is redrawn with that vertex as the moving one. The result is
        the redraw, or `None` when there was none. */
    method MouseMove(px: real, py: real) returns (frame: Option<Result<seq<Record>>>)
      requires Valid()
      modifies vertexPos
      ensures Valid()
      ensures current.None? ==> vertexPos[..] == old(vertexPos[..]) && frame.None?
      ensures current.Some? ==>
        vertexPos[..] == old(vertexPos[..])[current.value := Point(px, py)] &&
        frame == Some(DrawSpec(SceneOf(), current))
    {
      if current.None? {
        return None;
      }
      var c := current.value;
      vertexPos[c] := Point(px, py);
      var r := Draw(SceneOf(), current);
      frame := Some(r);
    }

    /** `mouseup`: release the captured vertex. */
    method MouseUp()
      requires Valid()
      modifies this
      ensures Valid() && current == None
    {
      current := None;
    }

    /** `mouseleave`: release the captured vertex. */
    method MouseLeave()
      requires Valid()
      modifies this
      ensures Valid() && current == None
    {
      current := None;
    }
  }

  /** A vertex that is hit, with no hit between `from` and it, is the first
      hit from `from` on. */
  lemma {:induction false} FirstHitAt(pos: seq<Point>, px: real, py: real, range: real, from: nat, i: nat)
    requires from <= i < |pos| && Hit(pos[i], px, py, range)
    requires forall j :: from <= j < i ==> !Hit(pos[j], px, py, range)
    ensures FirstHit(pos, px, py, range, from) == Some(i)
    decreases i - from
  {
    if from < i {
      FirstHitAt(pos, px, py, range, from + 1, i);
    }
  }

  /** With no vertex hit from `from` on, there is no first hit. */
  lemma {:induction false} NoFirstHit(pos: seq<Point>, px: real, py: real, range: real, from: nat)
    requires forall j :: from <= j < |pos| ==> !Hit(pos[j], px, py, range)
    ensures FirstHit(pos, px, py, range, from) == None
    decreases |pos| - from
  {
    if from < |pos| {
      NoFirstHit(pos, px, py, range, from + 1);
    }
  }
}
