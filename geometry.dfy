/** Values shared by the scanline filler: positions, colours, the vertex
    references a quad is made of, and the structural errors a draw pass can
    report. */
module Geometry {

  /** A canvas position. The source keeps `[x, y, z]` arrays of doubles; the
      filler only ever reads x and y, and the model uses exact reals. */
  datatype Point = Point(x: real, y: real)

  /** A corner of a quad: the index of its `vertex_pos` entry and the position
      stored there. The source matches edge endpoints against vertices by
      reference; within one draw pass two corners are the same reference
      exactly when they come from the same `vertex_pos` index, so `id` is what
      the model compares. */
  datatype Vertex = Vertex(id: nat, pos: Point)

  /** A `vertex_color` entry: three channels, 0..255 in the configuration. */
  datatype Color = Color(r: int, g: int, b: int)

  /** Number of corners (and edges) of every shape. */
  const POLY_EDGES: nat := 4

  /** The structural errors the source reports with `alert` (or runs into as
      an undefined read). */
  datatype GeometryError =
    | WrongCheckList   // an on-line vertex is the endpoint of other than two edges
    | OddCrossings     // a scanline meets a shape an odd number of times
    | NoAffectedShape  // the moved vertex belongs to no shape

  datatype Result<+T> = Ok(value: T) | Err(error: GeometryError) {
    predicate IsFailure() { Err? }
    function PropagateFailure<U>(): Result<U>
      requires Err?
    {
      Err(error)
    }
    function Extract(): T
      requires Ok?
    {
      value
    }
  }

  /** `r` with `prefix` put in front of its value; an error stays as it is. */
  function Prefixed<T>(prefix: seq<T>, r: Result<seq<T>>): Result<seq<T>> {
    match r
    case Err(e) => Err(e)
    case Ok(t) => Ok(prefix + t)
  }

  lemma PrefixedNothing<T>(r: Result<seq<T>>)
    ensures Prefixed([], r) == r
  {
    if r.Ok? {
      assert [] + r.value == r.value;
    }
  }

  lemma PrefixedTwice<T>(p: seq<T>, a: seq<T>, r: Result<seq<T>>)
    ensures Prefixed(p, Prefixed(a, r)) == Prefixed(p + a, r)
  {
    if r.Ok? {
      assert p + (a + r.value) == (p + a) + r.value;
    }
  }

  /** The values of `a` and then `b`; the first error wins. */
  function Concat<T>(a: Result<seq<T>>, b: Result<seq<T>>): Result<seq<T>> {
    match a
    case Err(e) => Err(e)
    case Ok(s) => Prefixed(s, b)
  }

  datatype Option<+T> = None | Some(value: T)

  function Min(a: real, b: real): real { if a <= b then a else b }
  function Max(a: real, b: real): real { if a >= b then a else b }
}
