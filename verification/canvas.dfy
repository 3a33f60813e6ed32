/** The drawing-area bound of the SVG back end: the largest x and y seen so
    far, kept as 32-bit integers that start at 10 and only grow. */
module Canvas {

  const IntMin: int := -0x8000_0000
  const IntMax: int := 0x7fff_ffff

  /** Kotlin's Double.toInt(): truncation toward zero, saturating at the
      32-bit bounds. */
  function DoubleToInt(x: real): (r: int)
    ensures IntMin <= r <= IntMax
    ensures x >= 0.0 ==> r >= 0
    ensures x <= 0.0 ==> r <= 0
  {
    if x >= IntMax as real then IntMax
    else if x <= IntMin as real then IntMin
    else if x >= 0.0 then x.Floor
    else -((-x).Floor)
  }

  /** The conversion lands in the 32-bit range, drops the fraction toward
      zero, and saturates outside the range. */
  lemma DoubleToIntTruncates(r: real)
    ensures IntMin <= DoubleToInt(r) <= IntMax
    ensures 0.0 <= r < IntMax as real ==> DoubleToInt(r) as real <= r < DoubleToInt(r) as real + 1.0
    ensures IntMin as real < r < 0.0 ==> DoubleToInt(r) as real - 1.0 < r <= DoubleToInt(r) as real
    ensures r >= IntMax as real ==> DoubleToInt(r) == IntMax
    ensures r <= IntMin as real ==> DoubleToInt(r) == IntMin
  {
  }

  /** An integral value in the 32-bit range converts to itself. */
  lemma DoubleToIntOfInt(n: int)
    requires IntMin <= n <= IntMax
    ensures DoubleToInt(n as real) == n
  {
    if n >= 0 {
      assert (n as real).Floor == n;
    } else {
      assert (-(n as real)).Floor == -n;
    }
  }

  /** A bound the back end can hold: its starting value 10 or more, and a
      32-bit integer. */
  predicate Canvas(m: int)
  {
    10 <= m <= IntMax
  }

  /** One coordinate of ensureVisible: a value beyond the bound moves the
      bound to the value plus one, truncated to a 32-bit integer; any other
      value leaves it where it is. */
  function Grow(m: int, v: real): (r: int)
    ensures r == m || IntMin <= r <= IntMax
    ensures m <= IntMax ==> m <= r
  {
    if v > m as real then DoubleToInt(v + 1.0) else m
  }

  /** Growing never shrinks a bound, keeps it a valid bound, and leaves the
      value inside it unless the bound saturated; a value already inside
      changes nothing, and a value beyond it moves it to the integer part of
      the value plus one. */
  lemma GrowBounds(m: int, v: real)
    ensures m <= IntMax ==> m <= Grow(m, v) <= IntMax
    ensures Canvas(m) ==> Canvas(Grow(m, v))
    ensures v <= m as real ==> Grow(m, v) == m
    ensures m <= IntMax ==> v <= Grow(m, v) as real || Grow(m, v) == IntMax
    ensures m as real < v && 0.0 <= v && v + 1.0 < IntMax as real ==> Grow(m, v) == v.Floor + 1
  {
    DoubleToIntTruncates(v + 1.0);
  }

  /** Growing by the same value twice is growing once. */
  lemma GrowIdempotent(m: int, v: real)
    ensures m <= IntMax ==> Grow(Grow(m, v), v) == Grow(m, v)
  {
    GrowBounds(m, v);
    GrowBounds(Grow(m, v), v);
  }

  /** The order in which points are seen matters: seeing 10.5 then 11 gives
      11, seeing 11 then 10.5 gives 12. */
  lemma GrowOrderMatters()
    ensures Grow(Grow(10, 10.5), 11.0) == 11
    ensures Grow(Grow(10, 11.0), 10.5) == 12
  {
    GrowBounds(10, 10.5);
    GrowBounds(10, 11.0);
    GrowBounds(11, 11.0);
    GrowBounds(12, 10.5);
  }

  datatype Bounds = Bounds(maxX: int, maxY: int)

  type Point = (real, real)

  predicate ValidBounds(b: Bounds)
  {
    Canvas(b.maxX) && Canvas(b.maxY)
  }

  /** ensureVisible(x, y) on the pair of bounds. */
  function See(b: Bounds, p: Point): Bounds
  {
    Bounds(Grow(b.maxX, p.0), Grow(b.maxY, p.1))
  }

  /** ensureVisible on each point in turn. */
  function SeeAll(b: Bounds, ps: seq<Point>): Bounds
    decreases |ps|
  {
    if ps == [] then b else SeeAll(See(b, ps[0]), ps[1..])
  }

  /** The point lies inside the bounds, or the bound it exceeds is saturated. */
  predicate Covers(b: Bounds, p: Point)
  {
    && (p.0 <= b.maxX as real || b.maxX == IntMax)
    && (p.1 <= b.maxY as real || b.maxY == IntMax)
  }

  predicate Within(b: Bounds, c: Bounds)
  {
    b.maxX <= c.maxX && b.maxY <= c.maxY
  }

  /** Seeing one point keeps the bounds valid, never shrinks them, and
      leaves the point covered. */
  lemma SeeCovers(b: Bounds, p: Point)
    ensures ValidBounds(b) ==> ValidBounds(See(b, p)) && Within(b, See(b, p)) && Covers(See(b, p), p)
  {
    GrowBounds(b.maxX, p.0);
    GrowBounds(b.maxY, p.1);
  }

  /** Seeing the points of ps and then those of qs is seeing ps + qs. */
  lemma {:induction false} SeeAllAppend(b: Bounds, ps: seq<Point>, qs: seq<Point>)
    ensures SeeAll(b, ps + qs) == SeeAll(SeeAll(b, ps), qs)
    decreases |ps|
  {
    if ps != [] {
      assert (ps + qs)[1..] == ps[1..] + qs;
      SeeAllAppend(See(b, ps[0]), ps[1..], qs);
    } else {
      assert ps + qs == qs;
    }
  }

  /** Seeing a list of points keeps the bounds valid, never shrinks them, and
      leaves every point of the list covered. */
  lemma {:induction false} SeeAllCovers(b: Bounds, ps: seq<Point>)
    ensures ValidBounds(b) ==>
      && ValidBounds(SeeAll(b, ps))
      && Within(b, SeeAll(b, ps))
      && forall p :: p in ps ==> Covers(SeeAll(b, ps), p)
    decreases |ps|
  {
    if ValidBounds(b) && ps != [] {
      var b1 := See(b, ps[0]);
      SeeCovers(b, ps[0]);
      SeeAllCovers(b1, ps[1..]);
      var r := SeeAll(b, ps);
      assert r == SeeAll(b1, ps[1..]);
      forall p | p in ps
        ensures Covers(r, p)
      {
        if p != ps[0] {
          assert p in ps[1..];
        }
      }
    }
  }
}
