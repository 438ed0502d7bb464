/** Where a side of a triangle crosses a centre line exactly, and how that compares with where
    trianglex_big has the edge.  Vertices count with the lowest bit of y set, as in edge_setup. */
module TriangleCrossings {
  import opened Machine
  import opened Raster
  import opened TriangleBig

  /** The exact crossing in 16.16, half a pixel added for rounding. */
  ghost function Crossing(p: Point, q: Point, line: int): real
    requires Odd(p.y) != Odd(q.y)
  {
    CrossingFrom(p.x, Odd(p.y), q.x - p.x, Odd(q.y) - Odd(p.y), line)
  }

  ghost function CrossingFrom(x1: int, y1: int, dx: int, dy: int, line: int): real
    requires dy != 0
  {
    (x1 * 4096 + 32768) as real + (dx * 4096 * (line - y1)) as real / dy as real
  }

  lemma RealQuotient(n: real, d: real, r: real)
    requires d != 0.0 && r * d == n
    ensures n / d == r
  {
  }

  lemma CrossingSymmetric(p: Point, q: Point, line: int)
    requires Odd(p.y) != Odd(q.y)
    ensures Crossing(p, q, line) == Crossing(q, p, line)
  {
    var d, m := Odd(q.y) - Odd(p.y), (q.x - p.x) * 4096;
    var h, h' := line - Odd(p.y), line - Odd(q.y);
    Reversed(m as real, h as real, d as real);
  }

  /** Seen from the other end. */
  lemma Reversed(m: real, h: real, d: real)
    requires d != 0.0
    ensures m * h / d == m + (-m) * (h - d) / -d
  {
    RealQuotient((-m) * (h - d), -d, m * h / d - m);
  }

  // ----- which side of a line

  /** c lies to the right of the line through p and q. */
  predicate RightOf(p: Point, q: Point, c: Point) {
    var u, w := Upper(p, q), Lower(p, q);
    (c.x - u.x) * (Odd(w.y) - Odd(u.y)) > (w.x - u.x) * (Odd(c.y) - Odd(u.y))
  }

  predicate LeftOf(p: Point, q: Point, c: Point) {
    var u, w := Upper(p, q), Lower(p, q);
    (c.x - u.x) * (Odd(w.y) - Odd(u.y)) < (w.x - u.x) * (Odd(c.y) - Odd(u.y))
  }

  lemma RightOfSymmetric(p: Point, q: Point, c: Point)
    requires p.y != q.y
    ensures (RightOf(p, q, c) <==> RightOf(q, p, c)) && (LeftOf(p, q, c) <==> LeftOf(q, p, c))
  {
  }

  /** On a centre line that two sides from p cross, the one to c is to the right of the one to q
      exactly when c is to the right of the line through p and q. */
  lemma CrossingsCompare(p: Point, q: Point, c: Point, n: int)
    requires Crosses(p, q, CentreLine(n)) && Crosses(p, c, CentreLine(n))
    ensures RightOf(p, q, c) <==> Crossing(p, c, CentreLine(n)) > Crossing(p, q, CentreLine(n))
    ensures LeftOf(p, q, c) <==> Crossing(p, c, CentreLine(n)) < Crossing(p, q, CentreLine(n))
  {
    Determinant(p, q, c);
    CompareFrom(p.x, Odd(p.y), c.x - p.x, Odd(c.y) - Odd(p.y), q.x - p.x, Odd(q.y) - Odd(p.y), CentreLine(n));
  }

  lemma CompareFrom(x1: int, y1: int, k: int, e: int, m: int, d: int, line: int)
    requires (line > y1 && d > 0 && e > 0) || (line < y1 && d < 0 && e < 0)
    ensures var det := k * d - m * e;
            && (CrossingFrom(x1, y1, k, e, line) > CrossingFrom(x1, y1, m, d, line) <==> if d > 0 then det > 0 else det < 0)
            && (CrossingFrom(x1, y1, k, e, line) < CrossingFrom(x1, y1, m, d, line) <==> if d > 0 then det < 0 else det > 0)
  {
    var h := line - y1;
    Fractions(k * 4096 * h, e, m * 4096 * h, d);
    SignOfProduct(k, m, h, d, e);
  }

  /** The test is the sign of a determinant. */
  lemma Determinant(p: Point, q: Point, c: Point)
    requires p.y != q.y
    ensures var det := (c.x - p.x) * (Odd(q.y) - Odd(p.y)) - (q.x - p.x) * (Odd(c.y) - Odd(p.y));
            && (RightOf(p, q, c) <==> if p.y < q.y then det > 0 else det < 0)
            && (LeftOf(p, q, c) <==> if p.y < q.y then det < 0 else det > 0)
  {
  }

  lemma Fractions(a: int, b: int, c: int, d: int)
    requires (b > 0 && d > 0) || (b < 0 && d < 0)
    ensures a as real / b as real > c as real / d as real <==> a * d > c * b
    ensures a as real / b as real < c as real / d as real <==> a * d < c * b
  {
    var x, y := a as real / b as real, c as real / d as real;
    assert x * b as real == a as real && y * d as real == c as real;
    CrossMultiplied(x, y, a as real, b as real, c as real, d as real);
    assert (a * d) as real == a as real * d as real && (c * b) as real == c as real * b as real;
  }

  lemma CrossMultiplied(x: real, y: real, a: real, b: real, c: real, d: real)
    requires ((b > 0.0 && d > 0.0) || (b < 0.0 && d < 0.0)) && x * b == a && y * d == c
    ensures x > y <==> a * d > c * b
    ensures x < y <==> a * d < c * b
  {
    Scaled(x, y, b, d);
    assert a * d == x * (b * d) && c * b == y * (b * d);
  }

  lemma Scaled(x: real, y: real, b: real, d: real)
    requires (b > 0.0 && d > 0.0) || (b < 0.0 && d < 0.0)
    ensures x > y <==> x * (b * d) > y * (b * d)
    ensures x < y <==> x * (b * d) < y * (b * d)
  {
    var f := b * d;
    assert f > 0.0;
  }

  lemma SignOfProduct(k: int, m: int, h: int, d: int, e: int)
    requires h != 0
    ensures var det := k * d - m * e;
            && ((k * 4096 * h) * d > (m * 4096 * h) * e <==> if h > 0 then det > 0 else det < 0)
            && ((k * 4096 * h) * d < (m * 4096 * h) * e <==> if h > 0 then det < 0 else det > 0)
  {
  }

  // ----- how far the fill is from it

  /** More than the error of an edge's position on a line, in units of 2^-16 pixel. */
  ghost function Slack(p: Point, q: Point, line: int): real {
    SlackFrom(Odd(Upper(p, q).y), line)
  }

  ghost function SlackFrom(y1: int, line: int): real {
    1.0 + (line - y1) as real / 16.0
  }

  lemma NearCrossing(p: Point, q: Point, nmin: int, nmax: int, n: int, e: Edge)
    requires e == SetUp(p, q, CentreLine(nmin), CentreLine(nmax)) && CentreLine(n) >= e.yTop && Odd(p.y) != Odd(q.y)
    requires SideFits(p, q, e.yTop, CentreLine(n))
    ensures -Slack(p, q, CentreLine(n)) < LineX(e, n) as real - Crossing(p, q, CentreLine(n)) < Slack(p, q, CentreLine(n))
  {
    var u, w := Upper(p, q), Lower(p, q);
    var x1, y1 := u.x, Odd(u.y);
    var dx, dy := w.x - x1, Odd(w.y) - y1;
    NearFrom(p, q, nmin, nmax, n, e, x1, y1, dx, dy);
    CrossingDown(p, q, x1, y1, dx, dy, CentreLine(n));
  }

  lemma NearFrom(p: Point, q: Point, nmin: int, nmax: int, n: int, e: Edge, x1: int, y1: int, dx: int, dy: int)
    requires e == SetUp(p, q, CentreLine(nmin), CentreLine(nmax)) && CentreLine(n) >= e.yTop
    requires x1 == Upper(p, q).x && y1 == Odd(Upper(p, q).y)
    requires dx == Lower(p, q).x - x1 && dy == Odd(Lower(p, q).y) - y1 && dy > 0
    requires EdgeFits(x1, y1, dx, dy, e.yTop, CentreLine(n))
    ensures -SlackFrom(y1, CentreLine(n)) < LineX(e, n) as real - CrossingFrom(x1, y1, dx, dy, CentreLine(n)) < SlackFrom(y1, CentreLine(n))
  {
    EdgeError(p, q, nmin, nmax, n, e, x1, y1, dx, dy);
    ErrorInPixels(LineX(e, n), x1, y1, dx, dy, CentreLine(n));
  }

  lemma CrossingDown(p: Point, q: Point, x1: int, y1: int, dx: int, dy: int, line: int)
    requires x1 == Upper(p, q).x && y1 == Odd(Upper(p, q).y)
    requires dx == Lower(p, q).x - x1 && dy == Odd(Lower(p, q).y) - y1 && dy > 0
    ensures Crossing(p, q, line) == CrossingFrom(x1, y1, dx, dy, line)
  {
    CrossingSymmetric(p, q, line);
  }

  /** No conversion to int32_t changes a value on the way to the line. */
  predicate SideFits(p: Point, q: Point, yTop: int, line: int)
    requires Odd(p.y) != Odd(q.y)
  {
    var u, w := Upper(p, q), Lower(p, q);
    EdgeFits(u.x, Odd(u.y), w.x - u.x, Odd(w.y) - Odd(u.y), yTop, line)
  }

  lemma ErrorInPixels(x: int, x1: int, y1: int, dx: int, dy: int, line: int)
    requires dy > 0 && OffBy(x, x1, y1, dx, dy, line) < dy * (16 + (line - y1))
    ensures -SlackFrom(y1, line) < x as real - CrossingFrom(x1, y1, dx, dy, line) < SlackFrom(y1, line)
  {
    ScaledError(x - (x1 * 4096 + 32768), dx, dy, line - y1);
  }

  lemma ScaledError(d: int, dx: int, dy: int, h: int)
    requires dy > 0 && Abs(16 * dy * d - dx * 0x1_0000 * h) < dy * (16 + h)
    ensures -(1.0 + h as real / 16.0) < d as real - (dx * 4096 * h) as real / dy as real < 1.0 + h as real / 16.0
  {
    var z := dy * d - dx * 4096 * h;
    assert 16 * z == 16 * dy * d - dx * 0x1_0000 * h;
    var r := d as real - (dx * 4096 * h) as real / dy as real;
    assert r * dy as real == z as real;
    Divided(r, dy as real, z as real, (16 + h) as real);
  }

  lemma Divided(r: real, d: real, z: real, b: real)
    requires d > 0.0 && r * d == z && -d * b < 16.0 * z < d * b
    ensures -b < 16.0 * r < b
  {
  }
}
