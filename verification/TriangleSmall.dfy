/** libpixelflinger/trap.cpp: trianglex_small, the half-space triangle fill.  Vertices are in
    28.4 fixed point. */
module TriangleSmall {
  import opened Machine
  import opened Raster

  /** A run of pixels handed to the scanline procedure. */
  datatype Span = Span(y: int, xl: int, xr: int)

  /** The edge function of the directed edge p -> q, positive to its inside. */
  function EdgeFn(p: Point, q: Point, m: Point): int {
    (p.y - q.y) * (p.x - m.x) - (p.x - q.x) * (p.y - m.y)
  }

  /** The right-exclusive fill rule: which directed edges own the centres on them. */
  predicate Owns(p: Point, q: Point) {
    p.y < q.y || (p.y == q.y && p.x > q.x)
  }

  function Biased(p: Point, q: Point, m: Point): int {
    EdgeFn(p, q, m) + if Owns(p, q) then 1 else 0
  }

  predicate Passes(p: Point, q: Point, m: Point) {
    Biased(p, q, m) > 0
  }

  predicate InsideNormalised(p0: Point, p1: Point, p2: Point, m: Point) {
    Passes(p0, p1, m) && Passes(p1, p2, m) && Passes(p2, p0, m)
  }

  /** The first two vertices change places when the triangle is clockwise. */
  predicate Clockwise(p0: Point, p1: Point, p2: Point) {
    (p0.x - p1.x) * (p2.y - p0.y) < (p0.y - p1.y) * (p2.x - p0.x)
  }

  predicate Inside(v0: Point, v1: Point, v2: Point, m: Point) {
    if Clockwise(v0, v1, v2) then InsideNormalised(v1, v0, v2, m) else InsideNormalised(v0, v1, v2, m)
  }

  function Centre(x: int, y: int): Point {
    Point(16 * x + 8, 16 * y + 8)
  }

  predicate InScissor(s: Scissor, x: int, y: int) {
    s.left <= x < s.right && s.top <= y < s.bottom
  }

  ghost predicate Covered(spans: seq<Span>, x: int, y: int) {
    exists i :: 0 <= i < |spans| && spans[i].y == y && spans[i].xl <= x < spans[i].xr
  }

  // ----- the fill rule

  lemma EdgeReversed(p: Point, q: Point, m: Point)
    ensures EdgeFn(q, p, m) == -EdgeFn(p, q, m)
  {
    Relative(p, q, m);
    Relative(q, p, m);
  }

  /** In coordinates relative to m the edge function is a cross product. */
  lemma Relative(p: Point, q: Point, m: Point)
    ensures EdgeFn(p, q, m) == (q.x - m.x) * (p.y - m.y) - (q.y - m.y) * (p.x - m.x)
  {
    var px, py, qx, qy := p.x - m.x, p.y - m.y, q.x - m.x, q.y - m.y;
    assert EdgeFn(p, q, m) == (py - qy) * px - (px - qx) * py;
  }

  /** Each centre passes exactly one of the two tests of an edge shared in opposite directions. */
  lemma SharedEdgeSplits(p: Point, q: Point, m: Point)
    requires p != q
    ensures Passes(p, q, m) <==> !Passes(q, p, m)
  {
    EdgeReversed(p, q, m);
  }

  /** The edge functions of the three sides add up to the (doubled) area, wherever m is. */
  lemma AreaSum(p0: Point, p1: Point, p2: Point, m: Point)
    ensures EdgeFn(p0, p1, m) + EdgeFn(p1, p2, m) + EdgeFn(p2, p0, m) == EdgeFn(p0, p1, p2)
  {
    Relative(p0, p1, m);
    Relative(p1, p2, m);
    Relative(p2, p0, m);
    AreaProducts(p0.x - m.x, p0.y - m.y, p1.x - m.x, p1.y - m.y, p2.x - m.x, p2.y - m.y);
  }

  lemma AreaProducts(x0: int, y0: int, x1: int, y1: int, x2: int, y2: int)
    ensures (x1 * y0 - y1 * x0) + (x2 * y1 - y2 * x1) + (x0 * y2 - y0 * x2) == (y0 - y1) * (x0 - x2) - (x0 - x1) * (y0 - y2)
  {
  }

  /** The third vertex is on the edge's inside exactly when the triangle is counter-clockwise. */
  lemma Orientation(p: Point, q: Point, r: Point)
    ensures Clockwise(p, q, r) <==> EdgeFn(p, q, r) < 0
    ensures EdgeFn(p, q, r) == EdgeFn(q, r, p) == -EdgeFn(q, p, r)
  {
    EdgeReversed(p, q, r);
    AreaSum(p, q, r, p);
    AreaSum(q, r, p, p);
    ClockwiseProducts(p.x - q.x, r.y - p.y, p.y - q.y, r.x - p.x);
  }

  lemma ClockwiseProducts(dx: int, ry: int, dy: int, rx: int)
    ensures dx * ry - dy * rx == dy * -rx - dx * -ry
  {
  }

  /** Directed sides that close up cannot all own their centres. */
  lemma NotAllOwned(p0: Point, p1: Point, p2: Point)
    ensures !(Owns(p0, p1) && Owns(p1, p2) && Owns(p2, p0))
  {
  }

  /** A triangle without area covers nothing, because its three tests exclude one another. */
  lemma DegenerateCoversNothing(p0: Point, p1: Point, p2: Point, m: Point)
    requires EdgeFn(p0, p1, p2) <= 0
    ensures !InsideNormalised(p0, p1, p2, m)
  {
    AreaSum(p0, p1, p2, m);
    NotAllOwned(p0, p1, p2);
  }

  /** Which pixels a triangle covers does not depend on the order of its vertices. */
  lemma VertexOrderIrrelevant(a: Point, b: Point, c: Point, m: Point)
    ensures Inside(a, b, c, m) == Inside(b, a, c, m) == Inside(b, c, a, m)
  {
    Orientation(a, b, c);
    Orientation(b, a, c);
    Orientation(b, c, a);
    if EdgeFn(a, b, c) == 0 {
      DegenerateCoversNothing(a, b, c, m);
      DegenerateCoversNothing(b, a, c, m);
      DegenerateCoversNothing(b, c, a, m);
    }
  }

  /** Two triangles on opposite sides of a shared edge never cover the same pixel, and a pixel
      inside the four outer edges is covered by one of them: no overlap and no crack. */
  lemma Watertight(p: Point, q: Point, c: Point, d: Point, m: Point)
    requires EdgeFn(p, q, c) > 0 > EdgeFn(p, q, d)
    ensures !(Inside(p, q, c, m) && Inside(p, q, d, m))
    ensures Passes(q, c, m) && Passes(c, p, m) && Passes(p, d, m) && Passes(d, q, m) ==>
              Inside(p, q, c, m) || Inside(p, q, d, m)
  {
    Orientation(p, q, c);
    Orientation(p, q, d);
    EdgeReversed(p, q, d);
    if p == q {
      Relative(p, q, c);
    }
    SharedEdgeSplits(p, q, m);
  }

  // ----- the bounding box loses nothing

  /** Weighted by the opposite side's edge function, the vertices balance around m. */
  lemma Barycentre(x0: int, y0: int, x1: int, y1: int, x2: int, y2: int)
    ensures (x1 * y0 - y1 * x0) * x2 + (x2 * y1 - y2 * x1) * x0 + (x0 * y2 - y0 * x2) * x1 == 0
    ensures (x1 * y0 - y1 * x0) * y2 + (x2 * y1 - y2 * x1) * y0 + (x0 * y2 - y0 * x2) * y1 == 0
  {
    MonomialsCancel(x0, x1, x2, y0, y1, y2);
    MonomialsCancel(y0, y1, y2, x0, x1, x2);
  }

  lemma MonomialsCancel(x0: int, x1: int, x2: int, y0: int, y1: int, y2: int)
    ensures (x1 * y0 - y1 * x0) * x2 + (x2 * y1 - y2 * x1) * x0 + (x0 * y2 - y0 * x2) * x1 == 0
  {
    Distribute(x1, y0, y1, x0, x2);
    Distribute(x2, y1, y2, x1, x0);
    Distribute(x0, y2, y0, x2, x1);
  }

  lemma Distribute(a: int, b: int, c: int, d: int, e: int)
    ensures (a * b - c * d) * e == (a * e) * b - (d * e) * c
  {
  }

  /** Non-negative weights, not all zero, cannot balance numbers of one sign. */
  lemma NoBalance(w0: int, w1: int, w2: int, t0: int, t1: int, t2: int)
    requires w0 >= 0 && w1 >= 0 && w2 >= 0 && w0 * t0 + w1 * t1 + w2 * t2 == 0
    requires w0 + w1 + w2 > 0
    ensures Min(t0, Min(t1, t2)) <= 0 <= Max(t0, Max(t1, t2))
  {
    if Min(t0, Min(t1, t2)) > 0 {
      AtLeast(w0, t0);
      AtLeast(w1, t1);
      AtLeast(w2, t2);
    } else if Max(t0, Max(t1, t2)) < 0 {
      AtLeast(w0, -t0);
      AtLeast(w1, -t1);
      AtLeast(w2, -t2);
    }
  }

  lemma AtLeast(w: int, t: int)
    ensures w >= 0 && t > 0 ==> w * t >= w
    ensures w * -t == -(w * t)
  {
    NegatedProduct(w, t);
    if w >= 0 && t > 0 {
      MulMonotone(1, t, w);
    }
  }

  lemma NegatedProduct(w: int, t: int)
    ensures w * -t == -(w * t)
  {
  }

  /** A centre that passes the three tests lies in the bounding box of the vertices. */
  lemma InsideBox(p0: Point, p1: Point, p2: Point, m: Point)
    requires InsideNormalised(p0, p1, p2, m)
    ensures Min(p0.x, Min(p1.x, p2.x)) <= m.x <= Max(p0.x, Max(p1.x, p2.x))
    ensures Min(p0.y, Min(p1.y, p2.y)) <= m.y <= Max(p0.y, Max(p1.y, p2.y))
  {
    var e0, e1, e2 := EdgeFn(p0, p1, m), EdgeFn(p1, p2, m), EdgeFn(p2, p0, m);
    NotAllOwned(p0, p1, p2);
    assert e0 + e1 + e2 > 0;
    Relative(p0, p1, m);
    Relative(p1, p2, m);
    Relative(p2, p0, m);
    Barycentre(p0.x - m.x, p0.y - m.y, p1.x - m.x, p1.y - m.y, p2.x - m.x, p2.y - m.y);
    NoBalance(e0, e1, e2, p2.x - m.x, p0.x - m.x, p1.x - m.x);
    NoBalance(e0, e1, e2, p2.y - m.y, p0.y - m.y, p1.y - m.y);
  }

  // ----- the fill rule, by geometry

  /** Zero for a point m on the line through p and q; the sign tells the side. */
  function SideSign(p: Point, q: Point, m: Point): int {
    (q.x - p.x) * (m.y - p.y) - (q.y - p.y) * (m.x - p.x)
  }

  /** c lies to the right of the line through p and q, or below it when the line is horizontal. */
  predicate RightOrBelow(p: Point, q: Point, c: Point) {
    if p.y < q.y then (c.x - p.x) * (q.y - p.y) > (q.x - p.x) * (c.y - p.y)
    else if q.y < p.y then (c.x - q.x) * (p.y - q.y) > (p.x - q.x) * (c.y - q.y)
    else c.y > p.y
  }

  /** m is on the same side of the line through p and q as c; or it is on the line, and c lies to
      the right of it or below it. */
  predicate WithC(p: Point, q: Point, c: Point, m: Point) {
    || (SideSign(p, q, c) > 0 && SideSign(p, q, m) > 0)
    || (SideSign(p, q, c) < 0 && SideSign(p, q, m) < 0)
    || (SideSign(p, q, m) == 0 && RightOrBelow(p, q, c))
  }

  /** A triangle covers what is inside all three sides, and of the centres on a side those of the
      left and upper ones. */
  lemma InsideExact(v0: Point, v1: Point, v2: Point, m: Point)
    requires SideSign(v0, v1, v2) != 0
    ensures Inside(v0, v1, v2, m) <==> WithC(v0, v1, v2, m) && WithC(v1, v2, v0, m) && WithC(v2, v0, v1, m)
  {
    SameArea(v0, v1, v2);
    if Clockwise(v0, v1, v2) {
      SameArea(v1, v0, v2);
      SideRule(v1, v0, v2, m);
      SideRule(v0, v2, v1, m);
      SideRule(v2, v1, v0, m);
      EitherWay(v0, v1, v2, m);
      EitherWay(v2, v0, v1, m);
      EitherWay(v1, v2, v0, m);
    } else {
      SideRule(v0, v1, v2, m);
      SideRule(v1, v2, v0, m);
      SideRule(v2, v0, v1, m);
    }
  }

  lemma SameArea(p: Point, q: Point, r: Point)
    ensures SideSign(p, q, r) == -EdgeFn(p, q, r)
    ensures EdgeFn(p, q, r) == EdgeFn(q, r, p) == EdgeFn(r, p, q) == -EdgeFn(q, p, r)
    ensures Clockwise(p, q, r) <==> EdgeFn(p, q, r) < 0
  {
  }

  lemma SideRule(p: Point, q: Point, c: Point, m: Point)
    requires EdgeFn(p, q, c) > 0
    ensures Passes(p, q, m) <==> WithC(p, q, c, m)
  {
    SignIs(p, q, c);
    SignIs(p, q, m);
    OwnsIs(p, q, c);
  }

  lemma SignIs(p: Point, q: Point, m: Point)
    ensures SideSign(p, q, m) == -EdgeFn(p, q, m)
  {
  }

  lemma OwnsIs(p: Point, q: Point, c: Point)
    requires EdgeFn(p, q, c) > 0
    ensures Owns(p, q) <==> RightOrBelow(p, q, c)
  {
    EdgeReversed(p, q, c);
    SignIs(p, q, c);
    SignIs(q, p, c);
    if p.y == q.y {
      MulSigns(p.x - q.x, c.y - p.y);
    }
  }

  lemma MulSigns(a: int, b: int)
    ensures a * b > 0 ==> (a > 0 <==> b > 0)
  {
  }

  lemma EitherWay(p: Point, q: Point, c: Point, m: Point)
    ensures WithC(p, q, c, m) <==> WithC(q, p, c, m)
  {
    SignIs(p, q, c);
    SignIs(q, p, c);
    SignIs(p, q, m);
    SignIs(q, p, m);
    EdgeReversed(p, q, c);
    EdgeReversed(p, q, m);
  }

  // ----- stepping the edge functions

  lemma StepRight(p: Point, q: Point, x: int, y: int)
    ensures Biased(p, q, Centre(x + 1, y)) == Biased(p, q, Centre(x, y)) - 16 * (p.y - q.y)
  {
    var dy, dx := p.y - q.y, p.x - q.x;
    assert dy * (p.x - (16 * (x + 1) + 8)) == dy * (p.x - (16 * x + 8)) - 16 * dy;
  }

  lemma StepDown(p: Point, q: Point, x: int, y: int)
    ensures Biased(p, q, Centre(x, y + 1)) == Biased(p, q, Centre(x, y)) + 16 * (p.x - q.x)
  {
    var dy, dx := p.y - q.y, p.x - q.x;
    assert dx * (p.y - (16 * (y + 1) + 8)) == dx * (p.y - (16 * y + 8)) - 16 * dx;
  }

  /** Along a row the biased edge function is linear. */
  lemma {:induction false} RowLinear(p: Point, q: Point, x: int, n: nat, y: int)
    ensures Biased(p, q, Centre(x + n, y)) == Biased(p, q, Centre(x, y)) - n * (16 * (p.y - q.y))
  {
    if n > 0 {
      RowLinear(p, q, x, n - 1, y);
      StepRight(p, q, x + n - 1, y);
      assert n * (16 * (p.y - q.y)) == (n - 1) * (16 * (p.y - q.y)) + 16 * (p.y - q.y);
    }
  }

  /** Hence an edge test that fails after having passed fails from there on. */
  lemma TestStaysFailed(p: Point, q: Point, x0: int, x1: int, x2: int, y: int)
    requires x0 < x1 <= x2 && Passes(p, q, Centre(x0, y)) && !Passes(p, q, Centre(x1, y))
    ensures !Passes(p, q, Centre(x2, y))
  {
    var slope := 16 * (p.y - q.y);
    RowLinear(p, q, x0, x1 - x0, y);
    RowLinear(p, q, x1, x2 - x1, y);
    if slope <= 0 {
      SlopeSign(x1 - x0, slope);
    } else {
      MulMonotone(0, slope, x2 - x1);
    }
  }

  lemma SlopeSign(n: nat, slope: int)
    requires slope <= 0
    ensures n * slope <= 0
  {
  }

  lemma RunEnds(p0: Point, p1: Point, p2: Point, x0: int, x1: int, x2: int, y: int)
    requires x0 < x1 <= x2
    requires InsideNormalised(p0, p1, p2, Centre(x0, y)) && !InsideNormalised(p0, p1, p2, Centre(x1, y))
    ensures !InsideNormalised(p0, p1, p2, Centre(x2, y))
  {
    if !Passes(p0, p1, Centre(x1, y)) {
      TestStaysFailed(p0, p1, x0, x1, x2, y);
    } else if !Passes(p1, p2, Centre(x1, y)) {
      TestStaysFailed(p1, p2, x0, x1, x2, y);
    } else {
      TestStaysFailed(p2, p0, x0, x1, x2, y);
    }
  }

  // ----- int32_t

  /** A rectangle that holds the vertices and all centres the fill looks at. */
  datatype Box = Box(x: int, y: int, w: int, h: int)

  predicate InBox(m: Point, box: Box) {
    box.x <= m.x <= box.x + box.w && box.y <= m.y <= box.y + box.h
  }

  /** Twice the area of a triangle in the box is at most the box's area; this is small enough. */
  predicate Roomy(box: Box) {
    box.w >= 0 && box.h >= 0 && box.w * box.h < TWO31 - 1
  }

  /** The vertices' bounding box with the centres around it, one step beyond it included. */
  function Around(v0: Point, v1: Point, v2: Point): Box {
    var x, y := Min(v0.x, Min(v1.x, v2.x)), Min(v0.y, Min(v1.y, v2.y));
    Box(x - 23, y - 23, Max(v0.x, Max(v1.x, v2.x)) - x + 46, Max(v0.y, Max(v1.y, v2.y)) - y + 46)
  }

  predicate InRange(p: Point) {
    -TWO31 / 2 < p.x < TWO31 / 2 && -TWO31 / 2 < p.y < TWO31 / 2
  }

  lemma ProductBound(a: int, b: int, m: int, n: int)
    requires -m <= a <= m && -n <= b <= n
    ensures -(m * n) <= a * b <= m * n
  {
    MulMonotone(b, n, m + a);
    MulMonotone(-n, b, m + a);
    MulMonotone(b, n, m - a);
    MulMonotone(-n, b, m - a);
    SumAndDifference(a, b, m);
    SumAndDifference(a, n, m);
    SumAndDifference(a, -n, m);
  }

  lemma SumAndDifference(a: int, b: int, m: int)
    ensures b * (m + a) == m * b + a * b && b * (m - a) == m * b - a * b
  {
  }

  /** The edge function as a sum over the heights, with weights that add up to zero. */
  lemma ByHeights(p: Point, q: Point, m: Point, y: int)
    ensures EdgeFn(p, q, m) == (p.y - y) * (q.x - m.x) + (q.y - y) * (m.x - p.x) + (m.y - y) * (p.x - q.x)
  {
    var a, b := q.x - m.x, m.x - p.x;
    HeightTerms(p.y - y, q.y - y, m.y - y, a, b);
  }

  lemma HeightTerms(py: int, qy: int, my: int, a: int, b: int)
    ensures (py - qy) * -b - (-a - b) * (py - my) == py * a + qy * b + my * (-a - b)
  {
  }

  lemma WeightedSum(t0: int, t1: int, t2: int, a: int, b: int, w: int, h: int)
    requires 0 <= t0 <= h && 0 <= t1 <= h && 0 <= t2 <= h
    requires -w <= a <= w && -w <= b <= w && -w <= a + b <= w
    ensures -(w * h) <= t0 * a + t1 * b + t2 * (-a - b) <= w * h
  {
    WeightBelow(t0, t1, t2, a, b, w, h);
    WeightBelow(t0, t1, t2, -a, -b, w, h);
    NegatedProduct(t0, a);
    NegatedProduct(t1, b);
    NegatedProduct(t2, -a - b);
  }

  /** At most h for every unit of positive weight, of which there are at most w. */
  lemma WeightBelow(t0: int, t1: int, t2: int, a: int, b: int, w: int, h: int)
    requires 0 <= t0 <= h && 0 <= t1 <= h && 0 <= t2 <= h
    requires -w <= a <= w && -w <= b <= w && -w <= a + b <= w
    ensures t0 * a + t1 * b + t2 * (-a - b) <= w * h
  {
    TermBelow(t0, a, h);
    TermBelow(t1, b, h);
    TermBelow(t2, -a - b, h);
    var positive := Max(a, 0) + Max(b, 0) + Max(-a - b, 0);
    MulMonotone(positive, w, h);
    ThreeTerms(Max(a, 0), Max(b, 0), Max(-a - b, 0), h);
  }

  lemma TermBelow(t: int, a: int, h: int)
    requires 0 <= t <= h
    ensures t * a <= Max(a, 0) * h
  {
    if a > 0 {
      MulMonotone(t, h, a);
    } else {
      MulMonotone(a, 0, t);
    }
  }

  lemma ThreeTerms(a: int, b: int, c: int, h: int)
    ensures (a + b + c) * h == a * h + b * h + c * h
  {
  }

  /** In a roomy box no edge value leaves int32_t, nor does a product on the way. */
  lemma EdgeValuesFit(p: Point, q: Point, m: Point, box: Box)
    requires InBox(p, box) && InBox(q, box) && InBox(m, box) && Roomy(box)
    ensures Fits32((p.y - q.y) * (p.x - m.x)) && Fits32((p.x - q.x) * (p.y - m.y))
    ensures Fits32(EdgeFn(p, q, m)) && Fits32(Biased(p, q, m))
  {
    ProductBound(p.x - m.x, p.y - q.y, box.w, box.h);
    ProductBound(p.x - q.x, p.y - m.y, box.w, box.h);
    ByHeights(p, q, m, box.y);
    WeightedSum(p.y - box.y, q.y - box.y, m.y - box.y, q.x - m.x, m.x - p.x, box.w, box.h);
  }

  /** Nor do the two products that tell the orientation. */
  lemma OrientationFits(p0: Point, p1: Point, p2: Point, box: Box)
    requires InBox(p0, box) && InBox(p1, box) && InBox(p2, box) && Roomy(box)
    ensures Fits32((p0.x - p1.x) * (p2.y - p0.y)) && Fits32((p0.y - p1.y) * (p2.x - p0.x))
  {
    ProductBound(p0.x - p1.x, p2.y - p0.y, box.w, box.h);
    ProductBound(p2.x - p0.x, p0.y - p1.y, box.w, box.h);
  }

  lemma AllFit(p0: Point, p1: Point, p2: Point, m: Point, box: Box)
    requires InBox(p0, box) && InBox(p1, box) && InBox(p2, box) && InBox(m, box) && Roomy(box)
    ensures Fits32(Biased(p0, p1, m)) && Fits32(Biased(p1, p2, m)) && Fits32(Biased(p2, p0, m))
  {
    EdgeValuesFit(p0, p1, m, box);
    EdgeValuesFit(p1, p2, m, box);
    EdgeValuesFit(p2, p0, m, box);
  }

  // ----- the fill, on int32_t

  /** The three tests, as int32_t arithmetic makes them. */
  predicate Tested(p0: Point, p1: Point, p2: Point, m: Point) {
    Wrap32(Biased(p0, p1, m)) > 0 && Wrap32(Biased(p1, p2, m)) > 0 && Wrap32(Biased(p2, p0, m)) > 0
  }

  predicate ClockwiseTested(p0: Point, p1: Point, p2: Point) {
    Wrap32((p0.x - p1.x) * (p2.y - p0.y)) < Wrap32((p0.y - p1.y) * (p2.x - p0.x))
  }

  /** The edge values at m fit an int32_t. */
  predicate EdgesFit(p0: Point, p1: Point, p2: Point, m: Point) {
    Fits32(Biased(p0, p1, m)) && Fits32(Biased(p1, p2, m)) && Fits32(Biased(p2, p0, m))
  }

  /** The biased edge functions at m, as int32_t holds them. */
  predicate EdgesAt(e0: int, e1: int, e2: int, p0: Point, p1: Point, p2: Point, m: Point) {
    e0 == Wrap32(Biased(p0, p1, m)) && e1 == Wrap32(Biased(p1, p2, m)) && e2 == Wrap32(Biased(p2, p0, m))
  }

  lemma EdgesDecide(e0: int, e1: int, e2: int, p0: Point, p1: Point, p2: Point, m: Point)
    requires EdgesAt(e0, e1, e2, p0, p1, p2, m)
    ensures Tested(p0, p1, p2, m) <==> e0 > 0 && e1 > 0 && e2 > 0
  {
  }

  lemma EdgesRight(e0: int, e1: int, e2: int, p0: Point, p1: Point, p2: Point, x: int, y: int)
    requires EdgesAt(e0, e1, e2, p0, p1, p2, Centre(x, y))
    ensures EdgesAt(Wrap32(e0 - 16 * (p0.y - p1.y)), Wrap32(e1 - 16 * (p1.y - p2.y)), Wrap32(e2 - 16 * (p2.y - p0.y)),
                    p0, p1, p2, Centre(x + 1, y))
  {
    StepRight(p0, p1, x, y);
    StepRight(p1, p2, x, y);
    StepRight(p2, p0, x, y);
    WrapAdd(Biased(p0, p1, Centre(x, y)), -16 * (p0.y - p1.y));
    WrapAdd(Biased(p1, p2, Centre(x, y)), -16 * (p1.y - p2.y));
    WrapAdd(Biased(p2, p0, Centre(x, y)), -16 * (p2.y - p0.y));
  }

  lemma EdgesDown(e0: int, e1: int, e2: int, p0: Point, p1: Point, p2: Point, x: int, y: int)
    requires EdgesAt(e0, e1, e2, p0, p1, p2, Centre(x, y))
    ensures EdgesAt(Wrap32(e0 + 16 * (p0.x - p1.x)), Wrap32(e1 + 16 * (p1.x - p2.x)), Wrap32(e2 + 16 * (p2.x - p0.x)),
                    p0, p1, p2, Centre(x, y + 1))
  {
    StepDown(p0, p1, x, y);
    StepDown(p1, p2, x, y);
    StepDown(p2, p0, x, y);
    WrapAdd(Biased(p0, p1, Centre(x, y)), 16 * (p0.x - p1.x));
    WrapAdd(Biased(p1, p2, Centre(x, y)), 16 * (p1.x - p2.x));
    WrapAdd(Biased(p2, p0, Centre(x, y)), 16 * (p2.x - p0.x));
  }

  /** On row y, from minx on, pixel x is in the first run of pixels that pass. */
  ghost predicate InFirstRun(p0: Point, p1: Point, p2: Point, minx: int, x: int, y: int) {
    && Tested(p0, p1, p2, Centre(x, y))
    && forall k, l :: minx <= k <= l <= x && Tested(p0, p1, p2, Centre(k, y)) ==> Tested(p0, p1, p2, Centre(l, y))
  }

  /** One row: skip to the first centre that passes, run to the first that does not. */
  method FillRow(p0: Point, p1: Point, p2: Point, minx: int, maxx: int, y: int, ey0: int, ey1: int, ey2: int)
    returns (xl: int, xr: int)
    requires minx <= maxx && EdgesAt(ey0, ey1, ey2, p0, p1, p2, Centre(minx, y))
    ensures minx <= xl <= xr <= maxx
    ensures forall x :: minx <= x < maxx ==> (xl <= x < xr <==> InFirstRun(p0, p1, p2, minx, x, y))
  {
    var ex0, ex1, ex2 := ey0, ey1, ey2;
    xl := minx;
    while xl < maxx && !(ex0 > 0 && ex1 > 0 && ex2 > 0)
      invariant minx <= xl <= maxx && EdgesAt(ex0, ex1, ex2, p0, p1, p2, Centre(xl, y))
      invariant forall x :: minx <= x < xl ==> !Tested(p0, p1, p2, Centre(x, y))
    {
      EdgesDecide(ex0, ex1, ex2, p0, p1, p2, Centre(xl, y));
      EdgesRight(ex0, ex1, ex2, p0, p1, p2, xl, y);
      ex0, ex1, ex2 := Wrap32(ex0 - 16 * (p0.y - p1.y)), Wrap32(ex1 - 16 * (p1.y - p2.y)), Wrap32(ex2 - 16 * (p2.y - p0.y));
      xl := xl + 1;
    }
    xr := xl;
    while xr < maxx && ex0 > 0 && ex1 > 0 && ex2 > 0
      invariant xl <= xr <= maxx && EdgesAt(ex0, ex1, ex2, p0, p1, p2, Centre(xr, y))
      invariant forall x :: xl <= x < xr ==> Tested(p0, p1, p2, Centre(x, y))
    {
      EdgesDecide(ex0, ex1, ex2, p0, p1, p2, Centre(xr, y));
      EdgesRight(ex0, ex1, ex2, p0, p1, p2, xr, y);
      ex0, ex1, ex2 := Wrap32(ex0 - 16 * (p0.y - p1.y)), Wrap32(ex1 - 16 * (p1.y - p2.y)), Wrap32(ex2 - 16 * (p2.y - p0.y));
      xr := xr + 1;
    }
    EdgesDecide(ex0, ex1, ex2, p0, p1, p2, Centre(xr, y));
    RunIsFirst(p0, p1, p2, minx, maxx, xl, xr, y);
  }

  lemma RunIsFirst(p0: Point, p1: Point, p2: Point, minx: int, maxx: int, xl: int, xr: int, y: int)
    requires minx <= xl <= xr <= maxx
    requires forall x :: minx <= x < xl ==> !Tested(p0, p1, p2, Centre(x, y))
    requires forall x :: xl <= x < xr ==> Tested(p0, p1, p2, Centre(x, y))
    requires xr < maxx ==> !Tested(p0, p1, p2, Centre(xr, y))
    requires xl == xr ==> xr == maxx
    ensures forall x :: minx <= x < maxx ==> (xl <= x < xr <==> InFirstRun(p0, p1, p2, minx, x, y))
  {
    forall x | minx <= x < maxx ensures xl <= x < xr <==> InFirstRun(p0, p1, p2, minx, x, y) {
      if xr <= x {
        assert Tested(p0, p1, p2, Centre(xl, y)) && !Tested(p0, p1, p2, Centre(xr, y));
      }
    }
  }

  /** A pixel whose centre is inside lies in the box the fill walks over. */
  lemma InsidePixelBox(p0: Point, p1: Point, p2: Point, x: int, y: int)
    requires InsideNormalised(p0, p1, p2, Centre(x, y))
    ensures TriFloor(Min(p0.x, Min(p1.x, p2.x))) / 16 <= x < TriCeil(Max(p0.x, Max(p1.x, p2.x))) / 16
    ensures TriFloor(Min(p0.y, Min(p1.y, p2.y))) / 16 <= y < TriCeil(Max(p0.y, Max(p1.y, p2.y))) / 16
  {
    InsideBox(p0, p1, p2, Centre(x, y));
    PixelBounds(Min(p0.x, Min(p1.x, p2.x)), Max(p0.x, Max(p1.x, p2.x)), x);
    PixelBounds(Min(p0.y, Min(p1.y, p2.y)), Max(p0.y, Max(p1.y, p2.y)), y);
  }

  lemma PixelBounds(lo: int, hi: int, c: int)
    requires lo <= 16 * c + 8 <= hi
    ensures TriFloor(lo) / 16 <= c < TriCeil(hi) / 16
  {
    var f, g := lo / 16, (hi + 15) / 16;
    assert TriFloor(lo) / 16 == f && TriCeil(hi) / 16 == g;
  }

  /** The pixels from (left, top) to before (right, bottom): the bounding box of the vertices,
      clipped by the scissor. */
  function Clipped(s: Scissor, p0: Point, p1: Point, p2: Point): Scissor {
    Scissor(Max(TriFloor(Min(p0.x, Min(p1.x, p2.x))) / 16, s.left), Max(TriFloor(Min(p0.y, Min(p1.y, p2.y))) / 16, s.top),
            Min(TriCeil(Max(p0.x, Max(p1.x, p2.x))) / 16, s.right), Min(TriCeil(Max(p0.y, Max(p1.y, p2.y))) / 16, s.bottom))
  }

  /** What trianglex_small fills, whatever overflows: in every row of the clipped box the first
      run of pixels that pass. */
  ghost predicate Filled(s: Scissor, v0: Point, v1: Point, v2: Point, x: int, y: int) {
    if ClockwiseTested(v0, v1, v2) then FilledNormalised(s, v1, v0, v2, x, y) else FilledNormalised(s, v0, v1, v2, x, y)
  }

  ghost predicate FilledNormalised(s: Scissor, p0: Point, p1: Point, p2: Point, x: int, y: int) {
    var box := Clipped(s, p0, p1, p2);
    InScissor(box, x, y) && InFirstRun(p0, p1, p2, box.left, x, y)
  }

  /** trianglex_small: at most one non-empty run a row, rows downward.  `iterators.y` is the row
      of the run. */
  method TrianglexSmall(s: Scissor, v0: Point, v1: Point, v2: Point) returns (spans: seq<Span>)
    requires InRange(v0) && InRange(v1) && InRange(v2)
    ensures forall x, y :: Covered(spans, x, y) <==> Filled(s, v0, v1, v2, x, y)
    ensures Safe(s, v0, v1, v2) ==>
              forall x, y :: Covered(spans, x, y) <==> InScissor(s, x, y) && Inside(v0, v1, v2, Centre(x, y))
    ensures forall i :: 0 <= i < |spans| ==> spans[i].xl < spans[i].xr
    ensures forall i, j :: 0 <= i < j < |spans| ==> spans[i].y < spans[j].y
  {
    var p0, p1, p2 := v0, v1, v2;
    if Wrap32((p0.x - p1.x) * (p2.y - p0.y)) < Wrap32((p0.y - p1.y) * (p2.x - p0.x)) {
      p0, p1 := p1, p0;
    }
    spans := FillBox(s, p0, p1, p2);
    if Safe(s, v0, v1, v2) {
      forall x, y ensures Covered(spans, x, y) <==> InScissor(s, x, y) && Inside(v0, v1, v2, Centre(x, y)) {
        SafeIsInside(s, v0, v1, v2, x, y);
      }
    }
  }

  /** The bounding box of the vertices, clipped by the scissor, and its rows. */
  method FillBox(s: Scissor, p0: Point, p1: Point, p2: Point) returns (spans: seq<Span>)
    requires InRange(p0) && InRange(p1) && InRange(p2)
    ensures forall x, y :: Covered(spans, x, y) <==> FilledNormalised(s, p0, p1, p2, x, y)
    ensures forall i :: 0 <= i < |spans| ==> spans[i].xl < spans[i].xr
    ensures forall i, j :: 0 <= i < j < |spans| ==> spans[i].y < spans[j].y
  {
    var minx := Max(TriFloor(Min(p0.x, Min(p1.x, p2.x))) / 16, s.left);
    var miny := Max(TriFloor(Min(p0.y, Min(p1.y, p2.y))) / 16, s.top);
    var maxx := Min(TriCeil(Max(p0.x, Max(p1.x, p2.x))) / 16, s.right);
    var maxy := Min(TriCeil(Max(p0.y, Max(p1.y, p2.y))) / 16, s.bottom);
    if minx >= maxx || miny >= maxy {
      return [];
    }
    spans := FillRows(p0, p1, p2, minx, maxx, miny, maxy);
  }

  /** The rows of the box.  `y` is also iterators.y, set by init_y and moved by step_y. */
  method FillRows(p0: Point, p1: Point, p2: Point, minx: int, maxx: int, miny: int, maxy: int) returns (spans: seq<Span>)
    requires minx <= maxx && miny <= maxy
    ensures RowsFilled(spans, p0, p1, p2, minx, maxx, miny, maxy)
  {
    spans := [];
    var ey0 := Wrap32(Biased(p0, p1, Centre(minx, miny)));
    var ey1 := Wrap32(Biased(p1, p2, Centre(minx, miny)));
    var ey2 := Wrap32(Biased(p2, p0, Centre(minx, miny)));
    var y := miny;
    while y < maxy
      invariant miny <= y <= maxy && EdgesAt(ey0, ey1, ey2, p0, p1, p2, Centre(minx, y))
      invariant RowsFilled(spans, p0, p1, p2, minx, maxx, miny, y)
    {
      var xl, xr := FillRow(p0, p1, p2, minx, maxx, y, ey0, ey1, ey2);
      ghost var before := spans;
      if xl < xr {
        spans := spans + [Span(y, xl, xr)];
      }
      RowAdded(before, spans, p0, p1, p2, minx, maxx, miny, y, xl, xr);
      EdgesDown(ey0, ey1, ey2, p0, p1, p2, minx, y);
      ey0, ey1, ey2 := Wrap32(ey0 + 16 * (p0.x - p1.x)), Wrap32(ey1 + 16 * (p1.x - p2.x)), Wrap32(ey2 + 16 * (p2.x - p0.x));
      y := y + 1;
    }
  }

  /** The rows from miny up to y are done. */
  ghost predicate RowsFilled(spans: seq<Span>, p0: Point, p1: Point, p2: Point, minx: int, maxx: int, miny: int, y: int) {
    && (forall x, r :: Covered(spans, x, r) <==>
          minx <= x < maxx && miny <= r < y && InFirstRun(p0, p1, p2, minx, x, r))
    && (forall i :: 0 <= i < |spans| ==> spans[i].xl < spans[i].xr && spans[i].y < y)
    && (forall i, j :: 0 <= i < j < |spans| ==> spans[i].y < spans[j].y)
  }

  lemma RowAdded(before: seq<Span>, after: seq<Span>, p0: Point, p1: Point, p2: Point,
                 minx: int, maxx: int, miny: int, y: int, xl: int, xr: int)
    requires RowsFilled(before, p0, p1, p2, minx, maxx, miny, y) && miny <= y && minx <= xl <= xr <= maxx
    requires after == if xl < xr then before + [Span(y, xl, xr)] else before
    requires forall x :: minx <= x < maxx ==> (xl <= x < xr <==> InFirstRun(p0, p1, p2, minx, x, y))
    ensures RowsFilled(after, p0, p1, p2, minx, maxx, miny, y + 1)
  {
    forall x, r
      ensures Covered(after, x, r) <==> Covered(before, x, r) || (r == y && xl <= x < xr)
    {
      if Covered(before, x, r) {
        var i :| 0 <= i < |before| && before[i].y == r && before[i].xl <= x < before[i].xr;
        assert after[i] == before[i];
      }
      if r == y && xl <= x < xr {
        assert after[|before|] == Span(y, xl, xr);
      }
    }
  }

  // ----- when nothing that matters overflows

  /** The orientation test is right, and all edge values at the pixels of the clipped box fit. */
  ghost predicate Safe(s: Scissor, v0: Point, v1: Point, v2: Point) {
    && (ClockwiseTested(v0, v1, v2) <==> Clockwise(v0, v1, v2))
    && if Clockwise(v0, v1, v2) then BoxFits(s, v1, v0, v2) else BoxFits(s, v0, v1, v2)
  }

  ghost predicate BoxFits(s: Scissor, p0: Point, p1: Point, p2: Point) {
    forall x, y :: InScissor(Clipped(s, p0, p1, p2), x, y) ==> EdgesFit(p0, p1, p2, Centre(x, y))
  }

  /** Then the fill is exactly the pixels of the scissor whose centre passes the three tests. */
  lemma SafeIsInside(s: Scissor, v0: Point, v1: Point, v2: Point, x: int, y: int)
    requires Safe(s, v0, v1, v2)
    ensures Filled(s, v0, v1, v2, x, y) <==> InScissor(s, x, y) && Inside(v0, v1, v2, Centre(x, y))
  {
    if Clockwise(v0, v1, v2) {
      FitsIsInside(s, v1, v0, v2, x, y);
    } else {
      FitsIsInside(s, v0, v1, v2, x, y);
    }
  }

  lemma FitsIsInside(s: Scissor, p0: Point, p1: Point, p2: Point, x: int, y: int)
    requires BoxFits(s, p0, p1, p2)
    ensures FilledNormalised(s, p0, p1, p2, x, y) <==> InScissor(s, x, y) && InsideNormalised(p0, p1, p2, Centre(x, y))
  {
    var box := Clipped(s, p0, p1, p2);
    if InScissor(s, x, y) && InsideNormalised(p0, p1, p2, Centre(x, y)) {
      InsidePixelBox(p0, p1, p2, x, y);
    }
    if InScissor(box, x, y) {
      forall k | box.left <= k <= x ensures Tested(p0, p1, p2, Centre(k, y)) <==> InsideNormalised(p0, p1, p2, Centre(k, y)) {
        assert InScissor(box, k, y);
      }
      if InsideNormalised(p0, p1, p2, Centre(x, y)) {
        OneRun(p0, p1, p2, box.left, x, y);
      }
    }
  }

  /** Up to a centre that passes, those from the first that passes on do. */
  lemma OneRun(p0: Point, p1: Point, p2: Point, minx: int, x: int, y: int)
    requires InsideNormalised(p0, p1, p2, Centre(x, y))
    ensures forall k, l :: minx <= k <= l <= x && InsideNormalised(p0, p1, p2, Centre(k, y)) ==> InsideNormalised(p0, p1, p2, Centre(l, y))
  {
    forall k, l | minx <= k <= l <= x && InsideNormalised(p0, p1, p2, Centre(k, y))
      ensures InsideNormalised(p0, p1, p2, Centre(l, y))
    {
      if !InsideNormalised(p0, p1, p2, Centre(l, y)) {
        RunEnds(p0, p1, p2, k, l, x, y);
      }
    }
  }

  /** The four corners of the box tell. */
  predicate CornersFit(p0: Point, p1: Point, p2: Point, box: Scissor) {
    && EdgesFit(p0, p1, p2, Centre(box.left, box.top)) && EdgesFit(p0, p1, p2, Centre(box.right - 1, box.top))
    && EdgesFit(p0, p1, p2, Centre(box.left, box.bottom - 1)) && EdgesFit(p0, p1, p2, Centre(box.right - 1, box.bottom - 1))
  }

  lemma CornersExact(s: Scissor, p0: Point, p1: Point, p2: Point)
    ensures var box := Clipped(s, p0, p1, p2);
            BoxFits(s, p0, p1, p2) <==> box.left >= box.right || box.top >= box.bottom || CornersFit(p0, p1, p2, box)
  {
    var box := Clipped(s, p0, p1, p2);
    if box.left < box.right && box.top < box.bottom {
      assert InScissor(box, box.left, box.top) && InScissor(box, box.right - 1, box.top);
      assert InScissor(box, box.left, box.bottom - 1) && InScissor(box, box.right - 1, box.bottom - 1);
      if CornersFit(p0, p1, p2, box) {
        forall x, y | InScissor(box, x, y) ensures EdgesFit(p0, p1, p2, Centre(x, y)) {
          FitsInside(p0, p1, box, x, y);
          FitsInside(p1, p2, box, x, y);
          FitsInside(p2, p0, box, x, y);
        }
      }
    }
  }

  lemma FitsInside(p: Point, q: Point, box: Scissor, x: int, y: int)
    requires InScissor(box, x, y)
    requires Fits32(Biased(p, q, Centre(box.left, box.top))) && Fits32(Biased(p, q, Centre(box.right - 1, box.top)))
    requires Fits32(Biased(p, q, Centre(box.left, box.bottom - 1))) && Fits32(Biased(p, q, Centre(box.right - 1, box.bottom - 1)))
    ensures Fits32(Biased(p, q, Centre(x, y)))
  {
    FitsAlong(p, q, box.left, x, box.right - 1, box.top);
    FitsAlong(p, q, box.left, x, box.right - 1, box.bottom - 1);
    ColumnLinear(p, q, x, box.top, y - box.top);
    ColumnLinear(p, q, x, box.top, box.bottom - 1 - box.top);
    FitsOnTheWay(Biased(p, q, Centre(x, box.top)), -16 * (p.x - q.x), y - box.top, box.bottom - 1 - box.top);
  }

  lemma FitsAlong(p: Point, q: Point, left: int, x: int, right: int, y: int)
    requires left <= x <= right && Fits32(Biased(p, q, Centre(left, y))) && Fits32(Biased(p, q, Centre(right, y)))
    ensures Fits32(Biased(p, q, Centre(x, y)))
  {
    RowLinear(p, q, left, x - left, y);
    RowLinear(p, q, left, right - left, y);
    FitsOnTheWay(Biased(p, q, Centre(left, y)), 16 * (p.y - q.y), x - left, right - left);
  }

  lemma FitsOnTheWay(v: int, d: int, n: int, end: int)
    requires 0 <= n <= end && Fits32(v) && Fits32(v - end * d)
    ensures Fits32(v - n * d)
  {
    if d >= 0 {
      MulMonotone(n, end, d);
      MulMonotone(0, n, d);
    } else {
      MulMonotone(n, end, -d);
      MulMonotone(0, n, -d);
      assert n * -d == -(n * d) && end * -d == -(end * d);
    }
  }

  /** Down a column the biased edge function is linear. */
  lemma {:induction false} ColumnLinear(p: Point, q: Point, x: int, y: int, n: nat)
    ensures Biased(p, q, Centre(x, y + n)) == Biased(p, q, Centre(x, y)) - n * (-16 * (p.x - q.x))
  {
    if n > 0 {
      ColumnLinear(p, q, x, y, n - 1);
      StepDown(p, q, x, y + n - 1);
      assert n * (-16 * (p.x - q.x)) == (n - 1) * (-16 * (p.x - q.x)) + -16 * (p.x - q.x);
    }
  }

  /** The centres of a clipped range of pixels, its end included, stay near the vertices. */
  lemma ClippedRange(lo: int, hi: int, min: int, max: int)
    requires TriFloor(lo) / 16 <= min < max <= TriCeil(hi) / 16
    ensures lo - 23 <= 16 * min + 8 <= 16 * max + 8 <= hi + 23
  {
    var f, g := lo / 16, (hi + 15) / 16;
    assert TriFloor(lo) / 16 == f && TriCeil(hi) / 16 == g;
  }

  /** A triangle whose box, with a margin, has an area that fits an int is safe in any scissor. */
  lemma RoomyIsSafe(s: Scissor, v0: Point, v1: Point, v2: Point)
    requires Roomy(Around(v0, v1, v2))
    ensures Safe(s, v0, v1, v2)
  {
    OrientationFits(v0, v1, v2, Around(v0, v1, v2));
    if Clockwise(v0, v1, v2) {
      RoomyFits(s, v1, v0, v2);
    } else {
      RoomyFits(s, v0, v1, v2);
    }
  }

  lemma RoomyFits(s: Scissor, p0: Point, p1: Point, p2: Point)
    requires Roomy(Around(p0, p1, p2))
    ensures BoxFits(s, p0, p1, p2)
  {
    var box := Clipped(s, p0, p1, p2);
    forall x, y | InScissor(box, x, y) ensures EdgesFit(p0, p1, p2, Centre(x, y)) {
      ClippedRange(Min(p0.x, Min(p1.x, p2.x)), Max(p0.x, Max(p1.x, p2.x)), box.left, box.right);
      ClippedRange(Min(p0.y, Min(p1.y, p2.y)), Max(p0.y, Max(p1.y, p2.y)), box.top, box.bottom);
      AllFit(p0, p1, p2, Centre(x, y), Around(p0, p1, p2));
    }
  }

  /** A triangle with a larger box can be taken for one of the other orientation: the first
      product of this one does not fit, converted to int32_t it changes sign, and the fill leaves
      out pixels inside. */
  lemma LargeTriangleMisjudged(s: Scissor)
    requires InScissor(s, 10, 10)
    ensures var p0, p1, p2 := Point(0, 0), Point(46400, 0), Point(0, 46400);
            && Clockwise(p0, p1, p2) && !ClockwiseTested(p0, p1, p2) && !Safe(s, p0, p1, p2)
            && Inside(p0, p1, p2, Centre(10, 10)) && !Filled(s, p0, p1, p2, 10, 10)
  {
    WrapUnique(-46400 * 46400, TWO32 - 46400 * 46400, -1);
    assert Wrap32(Biased(Point(0, 0), Point(46400, 0), Centre(10, 10))) < 0;
  }

  /** For a right triangle with legs along the axes, the products of the orientation test fit
      exactly when the product of the legs does, so that the area of the box is what matters. */
  lemma RightTriangleExact(p: Point, w: int, h: int)
    requires w > 0 && h > 0
    ensures var q, r := Point(p.x + w, p.y), Point(p.x, p.y + h);
            Fits32((p.x - q.x) * (r.y - p.y)) && Fits32((p.y - q.y) * (r.x - p.x)) <==> w * h <= TWO31
  {
    MulMonotone(1, w, h);
    assert -w * h == -(w * h);
  }
}
