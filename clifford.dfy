/**
  The Clifford map
    x' = sin(a·y) + c·cos(a·x)
    y' = sin(b·x) + d·cos(b·y)
  iterated from a starting point, each step clamped into [-2, 2]², scaled
  onto a `width × height` grid and marked by writing 255 into the cell.

  sin and cos are parameters: any real functions. Where a property needs
  them to stay in [-1, 1], the lemma says so with `Bounded`.
 */
module Clifford {
  import opened Common

  /** A stand-in for sin or cos: all the model ever uses is that it stays in [-1, 1]. */
  ghost predicate Bounded(f: real -> real)
  {
    forall v :: -1.0 <= f(v) <= 1.0
  }

  /** The value written into each visited cell. */
  const Mark: u32 := 255

  datatype Point = Point(x: real, y: real)

  /** The map's coefficients and the grid it draws into. */
  datatype Params = Params(a: real, b: real, c: real, d: real, width: nat, height: nat)

  /** The angle `k·v` handed to sin or cos. */
  function Phase(k: real, v: real): real
  {
    k * v
  }

  /** One step of the map; y' uses the x of the previous step. */
  function Step(p: Params, sin: real -> real, cos: real -> real, pt: Point): Point
  {
    Point(sin(Phase(p.a, pt.y)) + p.c * cos(Phase(p.a, pt.x)),
          sin(Phase(p.b, pt.x)) + p.d * cos(Phase(p.b, pt.y)))
  }

  /** The point reached after k steps from `start`. */
  function Orbit(p: Params, sin: real -> real, cos: real -> real, start: Point, k: nat): Point
  {
    if k == 0 then start else Step(p, sin, cos, Orbit(p, sin, cos, start, k - 1))
  }

  /** `fmaxf(-2, fminf(2, v))`. */
  function Clamp(v: real): (r: real)
    ensures -2.0 <= r <= 2.0
    ensures -2.0 <= v <= 2.0 ==> r == v
    ensures v > 2.0 ==> r == 2.0
    ensures v < -2.0 ==> r == -2.0
  {
    if v > 2.0 then 2.0 else if v < -2.0 then -2.0 else v
  }

  /**
    `(uint32_t)((v + 2) / 4 * extent)`: the cast truncates, which for the
    non-negative values that reach it is the floor.
   */
  function Scaled(v: real, extent: nat): int
  {
    ((v + 2.0) / 4.0 * (extent as real)).Floor
  }

  /** A clamped coordinate scales into [0, extent], reaching extent only at 2.0. */
  lemma ScaledRange(v: real, extent: nat)
    requires -2.0 <= v <= 2.0
    ensures 0 <= Scaled(v, extent) <= extent
    ensures extent > 0 ==> (Scaled(v, extent) == extent <==> v == 2.0)
  {
    var t := (v + 2.0) / 4.0;
    var e := extent as real;
    assert 0.0 <= t <= 1.0;
    assert 0.0 <= t * e <= e by {
      assert t * e <= 1.0 * e;
    }
    if extent > 0 && v < 2.0 {
      assert t < 1.0;
      assert t * e < e;
    }
  }

  /**
    The buffer index the source writes for a point, AS WRITTEN: clamp,
    scale, `scaled_x + scaled_y * width`, with no guard on either scaled
    coordinate reaching its extent.
   */
  function WriteIndexAsWritten(p: Params, pt: Point): int
  {
    Scaled(Clamp(pt.x), p.width) + Scaled(Clamp(pt.y), p.height) * p.width
  }

  /**
    Finding, as written: a clamped x of exactly 2.0 lands one past the last
    column, which is the first cell of the NEXT row; a clamped y of exactly
    2.0 lands past the end of the buffer.
   */
  lemma AsWrittenIndexEscapes(p: Params, pt: Point)
    requires p.width > 0 && p.height > 0
    ensures Clamp(pt.y) == 2.0 ==> WriteIndexAsWritten(p, pt) >= p.width * p.height
    ensures Clamp(pt.x) == 2.0 && Clamp(pt.y) < 2.0 ==>
      WriteIndexAsWritten(p, pt) == 0 + (Scaled(Clamp(pt.y), p.height) + 1) * p.width
  {
    var cx, cy := Clamp(pt.x), Clamp(pt.y);
    ScaledRange(cx, p.width);
    ScaledRange(cy, p.height);
    var sx, sy := Scaled(cx, p.width), Scaled(cy, p.height);
    if cy == 2.0 {
      assert sy == p.height;
      assert sx + sy * p.width >= p.height * p.width;
    }
  }

  /**
    Finding, the input that shows it: with the default c = 1 and a point
    where sin(a·y) = 1 and cos(a·x) = 1 (for instance x = 0 and a·y = π/2),
    the next x is exactly 2.0, so its scaled column is `width`.
   */
  lemma StepReachesRightEdge(p: Params, sin: real -> real, cos: real -> real, pt: Point)
    requires p.c == 1.0 && p.width > 0
    requires sin(Phase(p.a, pt.y)) == 1.0 && cos(Phase(p.a, pt.x)) == 1.0
    ensures Step(p, sin, cos, pt).x == 2.0
    ensures Scaled(Clamp(Step(p, sin, cos, pt).x), p.width) == p.width
  {
    assert Step(p, sin, cos, pt).x == 1.0 + 1.0 * 1.0;
    ScaledRange(2.0, p.width);
  }

  /**
    Corrected: the cell a point is drawn into, with each scaled coordinate
    capped at the last column or row, and no write at all on an empty grid.
   */
  function Cell(p: Params, pt: Point): (r: Option<nat>)
    ensures r.Some? <==> p.width > 0 && p.height > 0
    ensures r.Some? ==> r.value < p.width * p.height
  {
    if p.width == 0 || p.height == 0 then None
    else
      var cx, cy := Clamp(pt.x), Clamp(pt.y);
      ScaledRange(cx, p.width);
      ScaledRange(cy, p.height);
      var sx := if Scaled(cx, p.width) < p.width then Scaled(cx, p.width) else p.width - 1;
      var sy := if Scaled(cy, p.height) < p.height then Scaled(cy, p.height) else p.height - 1;
      RowMajorInBounds(sx, sy, p.width, p.height);
      Some(sx + sy * p.width)
  }

  /**
    Where the source's index is right, the corrected cell is the same: both
    clamped coordinates below 2.0.
   */
  lemma CellAgreesBelowEdge(p: Params, pt: Point)
    requires p.width > 0 && p.height > 0
    requires Clamp(pt.x) < 2.0 && Clamp(pt.y) < 2.0
    ensures Cell(p, pt) == Some(WriteIndexAsWritten(p, pt))
  {
    ScaledRange(Clamp(pt.x), p.width);
    ScaledRange(Clamp(pt.y), p.height);
  }

  /**
    With |c| < 1 and |d| < 1 every step stays strictly inside (-2, 2)², so
    the source's own index is in bounds and equals the corrected cell.
   */
  lemma SmallCoefficientsStayInside(p: Params, sin: real -> real, cos: real -> real, pt: Point)
    requires Bounded(sin) && Bounded(cos)
    requires p.width > 0 && p.height > 0
    requires -1.0 < p.c < 1.0 && -1.0 < p.d < 1.0
    ensures var next := Step(p, sin, cos, pt);
      && -2.0 < next.x < 2.0 && -2.0 < next.y < 2.0
      && 0 <= WriteIndexAsWritten(p, next) < p.width * p.height
      && Cell(p, next) == Some(WriteIndexAsWritten(p, next))
  {
    var next := Step(p, sin, cos, pt);
    StepStaysInside(p, sin, cos, pt);
    CellAgreesBelowEdge(p, next);
    ScaledRange(next.x, p.width);
    ScaledRange(next.y, p.height);
    RowMajorInBounds(Scaled(next.x, p.width), Scaled(next.y, p.height), p.width, p.height);
  }

  /** With |c| < 1 and |d| < 1 a step lands strictly inside (-2, 2)². */
  lemma StepStaysInside(p: Params, sin: real -> real, cos: real -> real, pt: Point)
    requires Bounded(sin) && Bounded(cos)
    requires -1.0 < p.c < 1.0 && -1.0 < p.d < 1.0
    ensures -2.0 < Step(p, sin, cos, pt).x < 2.0 && -2.0 < Step(p, sin, cos, pt).y < 2.0
  {
    var sx, mx, sy, my := StepTerms(p, sin, cos, pt);
  }

  /**
    A step as the sum of a sine term in [-1, 1] and a damped cosine term in
    (-1, 1), in each coordinate.
   */
  lemma StepTerms(p: Params, sin: real -> real, cos: real -> real, pt: Point)
    returns (sx: real, mx: real, sy: real, my: real)
    requires Bounded(sin) && Bounded(cos)
    requires -1.0 < p.c < 1.0 && -1.0 < p.d < 1.0
    ensures Step(p, sin, cos, pt).x == sx + mx && Step(p, sin, cos, pt).y == sy + my
    ensures -1.0 <= sx <= 1.0 && -1.0 < mx < 1.0 && -1.0 <= sy <= 1.0 && -1.0 < my < 1.0
  {
    sx, sy := sin(Phase(p.a, pt.y)), sin(Phase(p.b, pt.x));
    var cx, cy := cos(Phase(p.a, pt.x)), cos(Phase(p.b, pt.y));
    mx := BoundedTerm(p.c, cx);
    my := BoundedTerm(p.d, cy);
  }

  /** |k·t| < 1 when |k| < 1 and |t| <= 1. */
  lemma BoundedTerm(k: real, t: real) returns (m: real)
    requires -1.0 < k < 1.0 && -1.0 <= t <= 1.0
    ensures m == k * t && -1.0 < m < 1.0
  {
    m := k * t;
    if k >= 0.0 {
      if t >= 0.0 { assert k * t <= k * 1.0; } else { assert k * t >= k * -1.0; }
    } else {
      if t >= 0.0 { assert k * t >= k * 1.0; } else { assert k * t <= k * -1.0; }
    }
  }

  /** Cells marked by the first n steps from `start` (the start itself is not drawn). */
  function Visited(p: Params, sin: real -> real, cos: real -> real, start: Point, n: nat): set<nat>
  {
    if n == 0 then {}
    else
      Visited(p, sin, cos, start, n - 1) +
        (var cell := Cell(p, Orbit(p, sin, cos, start, n)); if cell.Some? then {cell.value} else {})
  }

  /** n steps mark at most n cells, all inside the grid. */
  lemma {:induction false} VisitedBounds(p: Params, sin: real -> real, cos: real -> real, start: Point, n: nat)
    ensures |Visited(p, sin, cos, start, n)| <= n
    ensures forall j :: j in Visited(p, sin, cos, start, n) ==> j < p.width * p.height
  {
    if n > 0 {
      VisitedBounds(p, sin, cos, start, n - 1);
      var pt := Orbit(p, sin, cos, start, n);
      var cell := Cell(p, pt);
      var added := if cell.Some? then {cell.value} else {};
      assert Visited(p, sin, cos, start, n) == Visited(p, sin, cos, start, n - 1) + added;
      assert |added| <= 1;
    }
  }

  class Clifford {
    var a: real
    var b: real
    var c: real
    var d: real
    var width: nat
    var height: nat
    var buffer: array<u32>

    ghost predicate Valid()
      reads this
    {
      buffer.Length == width * height
    }

    function Parameters(): Params
      reads this
    {
      Params(a, b, c, d, width, height)
    }

    /** The buffer is allocated but not initialised: nothing is promised about its contents. */
    constructor Make(width: nat, height: nat, a: real, b: real, c: real, d: real)
      ensures Valid() && fresh(buffer)
      ensures this.a == a && this.b == b && this.c == c && this.d == d
      ensures this.width == width && this.height == height
    {
      this.a, this.b, this.c, this.d := a, b, c, d;
      this.width, this.height := width, height;
      buffer := new u32[width * height];
    }

    /**
      Iterate `numIterations` steps from (x, y), marking each point's cell
      with 255. The orbit lives in locals: the object keeps no position, so
      the next call starts again from whatever point it is given.
     */
    method Iterate(numIterations: nat, x: real, y: real, sin: real -> real, cos: real -> real)
      requires Valid()
      modifies buffer
      ensures forall j :: 0 <= j < buffer.Length ==>
        buffer[j] == if j in Visited(Parameters(), sin, cos, Point(x, y), numIterations) then Mark else old(buffer[j])
    {
      var px, py := x, y;
      var i := 0;
      ghost var marked: set<nat> := {};
      while i < numIterations
        invariant 0 <= i <= numIterations
        invariant Point(px, py) == Orbit(Parameters(), sin, cos, Point(x, y), i)
        invariant marked == Visited(Parameters(), sin, cos, Point(x, y), i)
        invariant forall j :: 0 <= j < buffer.Length ==>
          buffer[j] == if j in marked then Mark else old(buffer[j])
      {
        var next := Step(Parameters(), sin, cos, Point(px, py));
        px, py := next.x, next.y;
        var cell := Cell(Parameters(), Point(px, py));
        if cell.Some? {
          buffer[cell.value] := Mark;
          marked := marked + {cell.value};
        }
        i := i + 1;
      }
    }
  }
}
