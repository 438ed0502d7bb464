/** trianglex_big on two triangles with a common side: when their runs meet there, when they
    overlap, and a condition on the vertices under which they meet. */
module TriangleSeams {
  import opened Machine
  import opened Raster
  import opened TriangleBig
  import opened TriangleCrossings
  import TriangleSmall

  predicate Draws(v: Visit, x: int) {
    v.xl <= x < v.xr
  }

  predicate DrawsNothing(v: Visit) {
    v.xl >= v.xr
  }

  // ----- one triangle: its visit to a scanline, from the vertices

  /** The visit to scanline n between sides i and j, in the order they have on the first scanline
      that they share. */
  ghost function VisitAt(s: Scissor, t: Tri, i: int, j: int, n: int): Visit
    requires 0 <= i < 3 && 0 <= j < 3
  {
    var a, b := Sides(s, t)[i], Sides(s, t)[j];
    if Precedes(a, b) then VisitOf(s, n, LineX(a, n), LineX(b, n)) else VisitOf(s, n, LineX(b, n), LineX(a, n))
  }

  /** The visit is to the scanline between the positions of sides l and r, which both cross it. */
  ghost predicate Between(s: Scissor, t: Tri, sides: seq<Edge>, v: Visit, l: int, r: int) {
    && |sides| == 3 && 0 <= l < 3 && 0 <= r < 3 && l != r && SideCrosses(t, l, v.y) && SideCrosses(t, r, v.y)
    && v == VisitOf(s, v.y, LineX(sides[l], v.y), LineX(sides[r], v.y)) && Precedes(sides[l], sides[r])
  }

  lemma SweepBetween(s: Scissor, t: Tri, sides: seq<Edge>, sweep: seq<Visit>, n0: int, i: int, j: int, k: nat, v: Visit)
    requires SweepOf(s, t, sides, sweep, n0, i, j) && k < |sweep| && v == sweep[k]
    ensures Between(s, t, sides, v, i, j)
  {
  }

  lemma SweepsBetween(s: Scissor, t: Tri, sides: seq<Edge>, trace: seq<Visit>, n0: int, m: int, i: int, j: int, i': int, j': int, k: nat)
    returns (l: int, r: int)
    requires TwoSweeps(s, t, sides, trace, n0, m, i, j, i', j') && k < |trace|
    ensures Between(s, t, sides, trace[k], l, r)
  {
    if k < m {
      l, r := i, j;
      SweepBetween(s, t, sides, trace[..m], n0, i, j, k, trace[k]);
    } else {
      l, r := i', j';
      SweepBetween(s, t, sides, trace[m..], n0 + m, i', j', k - m, trace[k]);
    }
  }

  lemma VisitBetween(s: Scissor, t: Tri, trace: seq<Visit>, k: nat) returns (l: int, r: int)
    requires Traced(s, t, trace) && k < |trace|
    ensures Between(s, t, Sides(s, t), trace[k], l, r)
  {
    var m, i, j, i', j' :| TwoSweeps(s, t, Sides(s, t), trace, trace[0].y, m, i, j, i', j');
    l, r := SweepsBetween(s, t, Sides(s, t), trace, trace[0].y, m, i, j, i', j', k);
  }

  /** Only two sides cross a scanline. */
  lemma TheTwo(t: Tri, i: int, j: int, l: int, r: int, n: int)
    requires 0 <= i < 3 && 0 <= j < 3 && i != j && 0 <= l < 3 && 0 <= r < 3 && l != r
    requires SideCrosses(t, i, n) && SideCrosses(t, j, n) && SideCrosses(t, l, n) && SideCrosses(t, r, n)
    ensures (i == l && j == r) || (i == r && j == l)
  {
    CrossedByNoneOrTwo(t.v0, t.v1, t.v2, CentreLine(n));
  }

  lemma CrossedIsWanted(s: Scissor, t: Tri, i: int, n: int)
    requires 0 <= i < 3 && SideIn(s, t, i, n)
    ensures Wanted(s, t, n)
  {
    CrossedByNoneOrTwo(t.v0, t.v1, t.v2, CentreLine(n));
  }

  /** Edges that are level where they meet, with the same slope, stay level. */
  lemma TieStays(a: Edge, b: Edge, n: int)
    requires OnLine(a) && OnLine(b) && Precedes(a, b) && Precedes(b, a)
    ensures LineX(a, n) == LineX(b, n)
  {
    var f := FirstShared(a, b);
    var fa :| a.yTop == CentreLine(fa);
    var fb :| b.yTop == CentreLine(fb);
    AdvancedSteps(a, fa, f, n - f);
    AdvancedSteps(b, fb, f, n - f);
  }

  /** What the fill does on scanline n is decided by the two sides that cross it, and by the
      order they have where they first meet a scanline together. */
  lemma VisitIs(s: Scissor, t: Tri, trace: seq<Visit>, i: int, j: int, n: int)
    requires Traced(s, t, trace) && 0 <= i < 3 && 0 <= j < 3 && i != j && SideIn(s, t, i, n) && SideIn(s, t, j, n)
    ensures VisitAt(s, t, i, j, n) in trace
    ensures forall v :: v in trace && v.y == n ==> v == VisitAt(s, t, i, j, n)
  {
    CrossedIsWanted(s, t, i, n);
    assert Visited(trace, n);
    var k :| 0 <= k < |trace| && trace[k].y == n;
    var l, r := VisitBetween(s, t, trace, k);
    TheTwo(t, i, j, l, r, n);
    BetweenIs(s, t, Sides(s, t), trace[k], i, j, l, r);
    assert forall k' :: 0 <= k' < |trace| && trace[k'].y == n ==> k' == k;
  }

  lemma BetweenIs(s: Scissor, t: Tri, sides: seq<Edge>, v: Visit, i: int, j: int, l: int, r: int)
    requires sides == Sides(s, t) && Between(s, t, sides, v, l, r)
    requires (i == l && j == r) || (i == r && j == l)
    ensures v == VisitAt(s, t, i, j, v.y)
  {
    SidesRanged(s, t);
    AllOnLine(s, t, sides);
    if Precedes(sides[r], sides[l]) {
      TieStays(sides[l], sides[r], v.y);
    }
  }

  // ----- two triangles: the common side

  /** Side i of t is side j of u, possibly the other way round. */
  predicate SameSide(t: Tri, i: int, u: Tri, j: int) {
    && 0 <= i < 3 && 0 <= j < 3
    && ((SideFrom(t, i) == SideFrom(u, j) && SideTo(t, i) == SideTo(u, j))
        || (SideFrom(t, i) == SideTo(u, j) && SideTo(t, i) == SideFrom(u, j)))
  }

  /** The direction of a side does not matter to edge_setup, unless the side is flat. */
  lemma SetUpSymmetric(p: Point, q: Point, ymin: int, ymax: int)
    requires p.y != q.y
    ensures SetUp(p, q, ymin, ymax) == SetUp(q, p, ymin, ymax)
  {
  }

  lemma SideSetUp(s: Scissor, t: Tri, i: int)
    requires 0 <= i < 3
    ensures Sides(s, t)[i] == SetUp(SideFrom(t, i), SideTo(t, i), CentreLine(s.top), CentreLine(s.bottom - 1))
  {
  }

  /** A common side is the same edge in both triangles, and so at the same position on every
      scanline. */
  lemma SharedSide(s: Scissor, t: Tri, i: int, u: Tri, j: int, n: int)
    requires SameSide(t, i, u, j) && SideCrosses(t, i, n)
    ensures SideCrosses(u, j, n) && Sides(s, t)[i] == Sides(s, u)[j]
  {
    SideSetUp(s, t, i);
    SideSetUp(s, u, j);
    SetUpSymmetric(SideFrom(t, i), SideTo(t, i), CentreLine(s.top), CentreLine(s.bottom - 1));
  }

  /** On scanline n, side i of t is side j of u; side k of t and side l of u are the outer ones. */
  ghost predicate Seam(s: Scissor, t: Tri, i: int, k: int, u: Tri, j: int, l: int, n: int) {
    && SameSide(t, i, u, j) && 0 <= k < 3 && k != i && 0 <= l < 3 && l != j
    && SideIn(s, t, i, n) && SideIn(s, t, k, n) && SideIn(s, u, l, n)
  }

  /** The common side comes second in one triangle and first in the other. */
  ghost predicate Meet(s: Scissor, t: Tri, i: int, k: int, u: Tri, j: int, l: int)
    requires 0 <= i < 3 && 0 <= k < 3 && 0 <= j < 3 && 0 <= l < 3
  {
    var a, b, c, d := Sides(s, t)[i], Sides(s, t)[k], Sides(s, u)[j], Sides(s, u)[l];
    (Precedes(b, a) && Precedes(c, d)) || (Precedes(a, b) && Precedes(d, c))
  }

  /** Pixel x, y is drawn by a fill. */
  ghost predicate Paints(trace: seq<Visit>, x: int, y: int) {
    exists v :: v in trace && v.y == y && Draws(v, x)
  }

  /** The edges e and o, ends of a visit, are in the order that Precedes gives. */
  predicate Ordered(s: Scissor, v: Visit, e: Edge, o: Edge, n: int) {
    && (Precedes(e, o) ==> v == VisitOf(s, n, LineX(e, n), LineX(o, n)))
    && (Precedes(o, e) ==> v == VisitOf(s, n, LineX(o, n), LineX(e, n)))
  }

  lemma VisitOrdered(s: Scissor, t: Tri, i: int, k: int, n: int)
    requires 0 <= i < 3 && 0 <= k < 3 && i != k
    ensures Ordered(s, VisitAt(s, t, i, k, n), Sides(s, t)[i], Sides(s, t)[k], n)
  {
    var a, b := Sides(s, t)[i], Sides(s, t)[k];
    SidesRanged(s, t);
    AllOnLine(s, t, Sides(s, t));
    if Precedes(a, b) && Precedes(b, a) {
      TieStays(a, b, n);
    }
  }

  /** Which end of the visit the side is at. */
  lemma EndsExact(s: Scissor, t: Tri, i: int, k: int, n: int)
    requires 0 <= i < 3 && 0 <= k < 3 && i != k
    ensures var v, a, b := VisitAt(s, t, i, k, n), Sides(s, t)[i], Sides(s, t)[k];
            && (v.leftX == LineX(a, n) <==> Precedes(a, b) || LineX(b, n) == LineX(a, n))
            && (v.rightX == LineX(a, n) <==> Precedes(b, a) || LineX(b, n) == LineX(a, n))
  {
    VisitOrdered(s, t, i, k, n);
  }

  /** Two runs that both end, or both begin, at x have a pixel in common unless one is empty;
      runs of which one ends where the other begins have none. */
  lemma RunsExact(s: Scissor, v: Visit, w: Visit, e: Edge, a: Edge, b: Edge, n: int)
    requires Ordered(s, v, e, a, n) && Ordered(s, w, e, b, n)
    ensures (forall x :: !(Draws(v, x) && Draws(w, x)))
       <==> DrawsNothing(v) || DrawsNothing(w) || (Precedes(a, e) && Precedes(e, b)) || (Precedes(e, a) && Precedes(b, e))
  {
    if !DrawsNothing(v) && !DrawsNothing(w) {
      assert Draws(v, v.xl) && Draws(v, v.xr - 1) && Draws(w, w.xl) && Draws(w, w.xr - 1);
      if !((Precedes(a, e) && Precedes(e, b)) || (Precedes(e, a) && Precedes(b, e))) {
        assert (v.leftX == w.leftX && v.xl == w.xl) || (v.rightX == w.rightX && v.xr == w.xr);
      }
    }
  }

  lemma PaintsIs(s: Scissor, t: Tri, trace: seq<Visit>, i: int, k: int, n: int, x: int)
    requires Traced(s, t, trace) && 0 <= i < 3 && 0 <= k < 3 && i != k && SideIn(s, t, i, n) && SideIn(s, t, k, n)
    ensures Paints(trace, x, n) <==> Draws(VisitAt(s, t, i, k, n), x)
  {
    VisitIs(s, t, trace, i, k, n);
  }

  /** The pixels of a scanline that the fill draws: those of the scissor from the edge that comes
      first, on the first scanline of both, to before the other. */
  lemma PaintsExact(s: Scissor, t: Tri, trace: seq<Visit>, i: int, k: int, n: int, x: int)
    requires Traced(s, t, trace) && 0 <= i < 3 && 0 <= k < 3 && i != k && SideIn(s, t, i, n) && SideIn(s, t, k, n)
    requires var a, b := Sides(s, t)[i], Sides(s, t)[k];
             var f := FirstShared(a, b);
             LineX(a, f) < LineX(b, f) || (LineX(a, f) == LineX(b, f) && a.xIncr <= b.xIncr)
    ensures var left, right := LineX(Sides(s, t)[i], n), LineX(Sides(s, t)[k], n);
            Paints(trace, x, n) <==> s.left <= x < s.right && left / 0x1_0000 <= x < right / 0x1_0000
  {
    PaintsIs(s, t, trace, i, k, n, x);
    VisitOrdered(s, t, i, k, n);
  }

  /** No pixel outside the scissor is drawn, and none on a scanline that no side crosses. */
  lemma PaintsInside(s: Scissor, t: Tri, trace: seq<Visit>, x: int, n: int)
    requires Traced(s, t, trace)
    ensures Paints(trace, x, n) ==> s.left <= x < s.right && s.top <= n < s.bottom && exists i :: 0 <= i < 3 && SideIn(s, t, i, n)
  {
    if Paints(trace, x, n) {
      var v :| v in trace && v.y == n && Draws(v, x);
      var k :| 0 <= k < |trace| && trace[k] == v;
      assert Visited(trace, n);
      var l, r := VisitBetween(s, t, trace, k);
      assert SideIn(s, t, l, n);
    }
  }

  /** Two triangles with a common side draw a pixel of scanline n twice exactly when both draw
      one there and the side comes first in both triangles, or second in both. */
  lemma OverlapExact(s: Scissor, t: Tri, i: int, k: int, trace: seq<Visit>, u: Tri, j: int, l: int, trace': seq<Visit>, n: int)
    requires Traced(s, t, trace) && Traced(s, u, trace') && Seam(s, t, i, k, u, j, l, n)
    ensures (exists x :: Paints(trace, x, n) && Paints(trace', x, n))
       <==> !Meet(s, t, i, k, u, j, l) && (exists x :: Paints(trace, x, n)) && (exists x :: Paints(trace', x, n))
  {
    var v, w := VisitAt(s, t, i, k, n), VisitAt(s, u, j, l, n);
    SharedSide(s, t, i, u, j, n);
    VisitOrdered(s, t, i, k, n);
    VisitOrdered(s, u, j, l, n);
    RunsExact(s, v, w, Sides(s, t)[i], Sides(s, t)[k], Sides(s, u)[l], n);
    forall x ensures Paints(trace, x, n) <==> Draws(v, x) {
      PaintsIs(s, t, trace, i, k, n, x);
    }
    forall x ensures Paints(trace', x, n) <==> Draws(w, x) {
      PaintsIs(s, u, trace', j, l, n, x);
    }
    assert DrawsNothing(v) || Draws(v, v.xl);
    assert DrawsNothing(w) || Draws(w, w.xl);
  }

  /** When the side comes second in one triangle and first in the other, every pixel from the
      outer side of the one to the outer side of the other is drawn. */
  lemma NoGap(s: Scissor, t: Tri, i: int, k: int, trace: seq<Visit>, u: Tri, j: int, l: int, trace': seq<Visit>, n: int, x: int)
    requires Traced(s, t, trace) && Traced(s, u, trace') && Seam(s, t, i, k, u, j, l, n)
    requires s.left <= x < s.right
    ensures var a, b, c, d := Sides(s, t)[i], Sides(s, t)[k], Sides(s, u)[j], Sides(s, u)[l];
            && (Precedes(b, a) && Precedes(c, d) && LineX(b, n) / 0x1_0000 <= x < LineX(d, n) / 0x1_0000 ==>
                  Paints(trace, x, n) || Paints(trace', x, n))
            && (Precedes(a, b) && Precedes(d, c) && LineX(d, n) / 0x1_0000 <= x < LineX(b, n) / 0x1_0000 ==>
                  Paints(trace, x, n) || Paints(trace', x, n))
  {
    SharedSide(s, t, i, u, j, n);
    VisitOrdered(s, t, i, k, n);
    VisitOrdered(s, u, j, l, n);
    PaintsIs(s, t, trace, i, k, n, x);
    PaintsIs(s, u, trace', j, l, n, x);
  }

  // ----- where the vertices lie

  /** The vertex that is not on side i. */
  function Apex(t: Tri, i: int): Point {
    if i == 0 then t.v2 else if i == 1 then t.v1 else t.v0
  }

  predicate ApexRight(t: Tri, i: int) {
    RightOf(SideFrom(t, i), SideTo(t, i), Apex(t, i))
  }

  predicate ApexLeft(t: Tri, i: int) {
    LeftOf(SideFrom(t, i), SideTo(t, i), Apex(t, i))
  }

  ghost function SideCrossing(t: Tri, i: int, n: int): real
    requires SideCrosses(t, i, n)
  {
    Crossing(SideFrom(t, i), SideTo(t, i), CentreLine(n))
  }

  ghost function SideSlack(t: Tri, i: int, n: int): real {
    Slack(SideFrom(t, i), SideTo(t, i), CentreLine(n))
  }

  /** Side k crosses a scanline to the right of side i exactly when the vertex off side i is to
      the right of it. */
  lemma ApexDecides(t: Tri, i: int, k: int, n: int)
    requires 0 <= i < 3 && 0 <= k < 3 && i != k && SideCrosses(t, i, n) && SideCrosses(t, k, n)
    ensures ApexRight(t, i) <==> SideCrossing(t, k, n) > SideCrossing(t, i, n)
    ensures ApexLeft(t, i) <==> SideCrossing(t, k, n) < SideCrossing(t, i, n)
  {
    CornerDecides(if i + k == 1 then t.v0 else if i + k == 2 then t.v1 else t.v2,
                  SideFrom(t, i), SideTo(t, i), SideFrom(t, k), SideTo(t, k), Apex(t, i), n);
  }

  /** The sides p-q and a-b have the corner o in common, and c is the other end of the second. */
  lemma CornerDecides(o: Point, p: Point, q: Point, a: Point, b: Point, c: Point, n: int)
    requires (o == p || o == q) && ((a == o && b == c) || (b == o && a == c))
    requires Crosses(p, q, CentreLine(n)) && Crosses(a, b, CentreLine(n))
    ensures RightOf(p, q, c) <==> Crossing(a, b, CentreLine(n)) > Crossing(p, q, CentreLine(n))
    ensures LeftOf(p, q, c) <==> Crossing(a, b, CentreLine(n)) < Crossing(p, q, CentreLine(n))
  {
    CrossingsCompare(o, if o == p then q else p, c, n);
    RightOfSymmetric(p, q, c);
    CrossingSymmetric(p, q, CentreLine(n));
    CrossingSymmetric(a, b, CentreLine(n));
  }

  /** On the first scanline of both sides no position wraps, and their exact crossings are
      further apart than the errors of the two edges together. */
  ghost predicate Apart(s: Scissor, t: Tri, i: int, k: int)
    requires 0 <= i < 3 && 0 <= k < 3
  {
    var a, b := Sides(s, t)[i], Sides(s, t)[k];
    var n := FirstShared(a, b);
    && SideCrosses(t, i, n) && SideCrosses(t, k, n)
    && SideFits(SideFrom(t, i), SideTo(t, i), a.yTop, CentreLine(n))
    && SideFits(SideFrom(t, k), SideTo(t, k), b.yTop, CentreLine(n))
    && var d := SideCrossing(t, k, n) - SideCrossing(t, i, n);
       (if d < 0.0 then -d else d) >= SideSlack(t, i, n) + SideSlack(t, k, n)
  }

  lemma NearSide(s: Scissor, t: Tri, i: int, n: int)
    requires 0 <= i < 3 && SideCrosses(t, i, n) && CentreLine(n) >= Sides(s, t)[i].yTop
    requires SideFits(SideFrom(t, i), SideTo(t, i), Sides(s, t)[i].yTop, CentreLine(n))
    ensures -SideSlack(t, i, n) < LineX(Sides(s, t)[i], n) as real - SideCrossing(t, i, n) < SideSlack(t, i, n)
  {
    SideSetUp(s, t, i);
    NearCrossing(SideFrom(t, i), SideTo(t, i), s.top, s.bottom - 1, n, Sides(s, t)[i]);
  }

  /** A pixel of the scissor is drawn when its centre, in 16.16, lies between the exact crossings
      by more than the errors of the edges, and is not when it lies outside by as much.  Half a
      pixel is added on both sides. */
  lemma CentresDecide(s: Scissor, t: Tri, trace: seq<Visit>, i: int, k: int, n: int, x: int)
    requires Traced(s, t, trace) && 0 <= i < 3 && 0 <= k < 3 && i != k && SideIn(s, t, i, n) && SideIn(s, t, k, n)
    requires Precedes(Sides(s, t)[i], Sides(s, t)[k]) && s.left <= x < s.right
    requires SideFits(SideFrom(t, i), SideTo(t, i), Sides(s, t)[i].yTop, CentreLine(n))
    requires SideFits(SideFrom(t, k), SideTo(t, k), Sides(s, t)[k].yTop, CentreLine(n))
    ensures var centre := (0x1_0000 * x + 0x8000 + 0x8000) as real;
            && (SideCrossing(t, i, n) + SideSlack(t, i, n) <= centre <= SideCrossing(t, k, n) - SideSlack(t, k, n) ==>
                  Paints(trace, x, n))
            && (centre <= SideCrossing(t, i, n) - SideSlack(t, i, n) || SideCrossing(t, k, n) + SideSlack(t, k, n) <= centre ==>
                  !Paints(trace, x, n))
  {
    BelowFirst(s, t, i, n);
    BelowFirst(s, t, k, n);
    NearSide(s, t, i, n);
    NearSide(s, t, k, n);
    PaintsExact(s, t, trace, i, k, n, x);
    PixelPast(LineX(Sides(s, t)[i], n), x);
    PixelPast(LineX(Sides(s, t)[k], n), x);
  }

  lemma PixelPast(position: int, x: int)
    ensures position / 0x1_0000 <= x <==> position < 0x1_0000 * x + 0x1_0000
  {
  }

  lemma BelowFirst(s: Scissor, t: Tri, i: int, n: int)
    requires 0 <= i < 3 && SideIn(s, t, i, n)
    ensures CentreLine(n) >= Sides(s, t)[i].yTop
  {
    SideSetUp(s, t, i);
    var top, bot := SideRange(s, t, i);
    assert In(top, bot, n);
  }

  lemma SharedIsBelow(s: Scissor, t: Tri, i: int, k: int)
    requires 0 <= i < 3 && 0 <= k < 3
    ensures var a, b := Sides(s, t)[i], Sides(s, t)[k];
            CentreLine(FirstShared(a, b)) >= a.yTop && CentreLine(FirstShared(a, b)) >= b.yTop
  {
    SidesRanged(s, t);
    AllOnLine(s, t, Sides(s, t));
    OnTheLine(Sides(s, t)[i], Sides(s, t)[k]);
  }

  lemma OnTheLine(a: Edge, b: Edge)
    requires OnLine(a) && OnLine(b)
    ensures CentreLine(FirstShared(a, b)) == Max(a.yTop, b.yTop)
  {
  }

  /** Sides that are apart are ordered as the vertices say. */
  lemma ApexOrders(s: Scissor, t: Tri, i: int, k: int)
    requires 0 <= i < 3 && 0 <= k < 3 && i != k && Apart(s, t, i, k)
    ensures ApexRight(t, i) <==> Precedes(Sides(s, t)[i], Sides(s, t)[k])
    ensures ApexLeft(t, i) <==> Precedes(Sides(s, t)[k], Sides(s, t)[i])
  {
    var a, b := Sides(s, t)[i], Sides(s, t)[k];
    var n := FirstShared(a, b);
    SharedIsBelow(s, t, i, k);
    NearSide(s, t, i, n);
    NearSide(s, t, k, n);
    ApexDecides(t, i, k, n);
    assert FirstShared(b, a) == n;
  }

  /** A side up to 2048 pixels wide that starts within 16384 pixels of the origin. */
  predicate Narrow(p: Point, q: Point) {
    && -0x8000 <= q.x - p.x <= 0x8000 && -0x4_0000 <= Upper(p, q).x <= 0x4_0000
    && -0x1_0000 < p.y < 0x1_0000 && -0x1_0000 < q.y < 0x1_0000
  }

  lemma NarrowFits(s: Scissor, t: Tri, i: int, n: int)
    requires 0 <= i < 3 && SideCrosses(t, i, n) && CentreLine(n) >= Sides(s, t)[i].yTop
    requires Narrow(SideFrom(t, i), SideTo(t, i))
    ensures SideFits(SideFrom(t, i), SideTo(t, i), Sides(s, t)[i].yTop, CentreLine(n)) && SideSlack(t, i, n) <= 8193.0
  {
    SideSetUp(s, t, i);
    NarrowSideFits(SideFrom(t, i), SideTo(t, i), s.top, n, Sides(s, t)[i].yTop);
  }

  lemma NarrowSideFits(p: Point, q: Point, nmin: int, n: int, yTop: int)
    requires Crosses(p, q, CentreLine(n)) && yTop == TopLine(p, q, CentreLine(nmin)) && CentreLine(n) >= yTop && Narrow(p, q)
    ensures SideFits(p, q, yTop, CentreLine(n)) && Slack(p, q, CentreLine(n)) <= 8193.0
  {
    var u, w := Upper(p, q), Lower(p, q);
    NarrowFrom(p, q, u.x, Odd(u.y), w.x - u.x, Odd(w.y) - Odd(u.y), nmin, n, yTop);
  }

  lemma NarrowFrom(p: Point, q: Point, x1: int, y1: int, dx: int, dy: int, nmin: int, n: int, yTop: int)
    requires Crosses(p, q, CentreLine(n)) && yTop == TopLine(p, q, CentreLine(nmin)) && CentreLine(n) >= yTop && Narrow(p, q)
    requires x1 == Upper(p, q).x && y1 == Odd(Upper(p, q).y) && dx == Lower(p, q).x - x1 && dy == Odd(Lower(p, q).y) - y1
    ensures dy > 0 && EdgeFits(x1, y1, dx, dy, yTop, CentreLine(n)) && SlackFrom(y1, CentreLine(n)) <= 8193.0
  {
    FirstLine(y1, nmin, n);
    NarrowEdgesFit(x1, y1, dx, dy, yTop, CentreLine(n));
    SlackBound(y1, CentreLine(n));
  }

  lemma SlackBound(y1: int, line: int)
    requires line - y1 <= 0x2_0000
    ensures SlackFrom(y1, line) <= 8193.0
  {
  }

  /** Two sides that share a scanline both cross their first one. */
  lemma FirstIsShared(s: Scissor, t: Tri, i: int, k: int, n: int)
    requires 0 <= i < 3 && 0 <= k < 3 && SideIn(s, t, i, n) && SideIn(s, t, k, n)
    ensures var f := FirstShared(Sides(s, t)[i], Sides(s, t)[k]); SideIn(s, t, i, f) && SideIn(s, t, k, f)
  {
    var f := FirstShared(Sides(s, t)[i], Sides(s, t)[k]);
    SideSetUp(s, t, i);
    SideSetUp(s, t, k);
    var ti, bi := SideRange(s, t, i);
    var tk, bk := SideRange(s, t, k);
    assert In(ti, bi, n) && In(tk, bk, n);
    assert f == Max(ti, tk);
    assert In(ti, bi, f) && In(tk, bk, f);
  }

  /** For narrow sides a quarter of a pixel is enough. */
  lemma QuarterPixel(s: Scissor, t: Tri, i: int, k: int, n: int)
    requires 0 <= i < 3 && 0 <= k < 3 && SideIn(s, t, i, n) && SideIn(s, t, k, n)
    requires Narrow(SideFrom(t, i), SideTo(t, i)) && Narrow(SideFrom(t, k), SideTo(t, k))
    requires var f := FirstShared(Sides(s, t)[i], Sides(s, t)[k]);
             SideCrosses(t, i, f) && SideCrosses(t, k, f) ==>
               SideCrossing(t, k, f) - SideCrossing(t, i, f) >= 16386.0 || SideCrossing(t, i, f) - SideCrossing(t, k, f) >= 16386.0
    ensures Apart(s, t, i, k)
  {
    var f := FirstShared(Sides(s, t)[i], Sides(s, t)[k]);
    FirstIsShared(s, t, i, k, n);
    SharedIsBelow(s, t, i, k);
    NarrowFits(s, t, i, f);
    NarrowFits(s, t, k, f);
  }

  /** The vertices off the common side are on different sides of it. */
  predicate Opposite(t: Tri, i: int, u: Tri, j: int) {
    (ApexLeft(t, i) && ApexRight(u, j)) || (ApexRight(t, i) && ApexLeft(u, j))
  }

  /** Where the sides are apart, the triangles meet at the common side exactly when they lie on
      different sides of it. */
  lemma MeetExact(s: Scissor, t: Tri, i: int, k: int, u: Tri, j: int, l: int, n: int)
    requires Seam(s, t, i, k, u, j, l, n) && Apart(s, t, i, k) && Apart(s, u, j, l)
    ensures Meet(s, t, i, k, u, j, l) <==> Opposite(t, i, u, j)
  {
    ApexOrders(s, t, i, k);
    ApexOrders(s, u, j, l);
  }

  /** From the outer side of the triangle on the left to that of the triangle on the right. */
  ghost predicate BetweenOuter(s: Scissor, t: Tri, i: int, k: int, u: Tri, j: int, l: int, n: int, x: int)
    requires Seam(s, t, i, k, u, j, l, n)
  {
    var a, b := LineX(Sides(s, t)[k], n), LineX(Sides(s, u)[l], n);
    s.left <= x < s.right && if ApexLeft(t, i) then a / 0x1_0000 <= x < b / 0x1_0000 else b / 0x1_0000 <= x < a / 0x1_0000
  }

  /** Triangles on different sides of a common side, with the outer sides apart from it: on the
      scanlines of the side no pixel is drawn twice, and none between the outer sides is left
      out. */
  lemma NoGapNoOverlap(s: Scissor, t: Tri, i: int, k: int, trace: seq<Visit>, u: Tri, j: int, l: int, trace': seq<Visit>, n: int, x: int)
    requires Traced(s, t, trace) && Traced(s, u, trace') && Seam(s, t, i, k, u, j, l, n)
    requires Apart(s, t, i, k) && Apart(s, u, j, l) && Opposite(t, i, u, j)
    ensures !(Paints(trace, x, n) && Paints(trace', x, n))
    ensures BetweenOuter(s, t, i, k, u, j, l, n, x) ==> Paints(trace, x, n) || Paints(trace', x, n)
  {
    MeetExact(s, t, i, k, u, j, l, n);
    OverlapExact(s, t, i, k, trace, u, j, l, trace', n);
    if BetweenOuter(s, t, i, k, u, j, l, n, x) {
      ApexOrders(s, t, i, k);
      ApexOrders(s, u, j, l);
      NoGap(s, t, i, k, trace, u, j, l, trace', n, x);
    }
  }

  /** An instance: the halves of a square of ten pixels, on every one of its scanlines. */
  lemma SquareMeets(n: int)
    requires 0 <= n < 10
    ensures var p, q := Point(1, 1), Point(161, 161);
            var t, u := Tri(p, q, Point(1, 161)), Tri(p, q, Point(161, 1));
            Seam(SCISSOR, t, 0, 1, u, 0, 2, n) && Apart(SCISSOR, t, 0, 1) && Apart(SCISSOR, u, 0, 2) && Opposite(t, 0, u, 0)
  {
    HalfApart(LEFT_HALF, 1, n);
    HalfApart(RIGHT_HALF, 2, n);
  }

  const LEFT_HALF: Tri := Tri(Point(1, 1), Point(161, 161), Point(1, 161))
  const RIGHT_HALF: Tri := Tri(Point(1, 1), Point(161, 161), Point(161, 1))

  lemma HalfApart(t: Tri, k: int, n: int)
    requires (t == LEFT_HALF && k == 1) || (t == RIGHT_HALF && k == 2)
    requires 0 <= n < 10
    ensures SideIn(SCISSOR, t, 0, n) && SideIn(SCISSOR, t, k, n) && Apart(SCISSOR, t, 0, k)
  {
    HalfFirst(t, k);
    HalfCrossings();
    QuarterPixel(SCISSOR, t, 0, k, n);
  }

  lemma HalfFirst(t: Tri, k: int)
    requires (t == LEFT_HALF && k == 1) || (t == RIGHT_HALF && k == 2)
    ensures FirstShared(Sides(SCISSOR, t)[0], Sides(SCISSOR, t)[k]) == 0
  {
    SideSetUp(SCISSOR, t, 0);
    SideSetUp(SCISSOR, t, k);
  }

  lemma HalfCrossings()
    ensures Crossing(Point(1, 1), Point(161, 161), 8) == 65536.0
    ensures Crossing(Point(1, 1), Point(1, 161), 8) == 36864.0
    ensures Crossing(Point(161, 161), Point(161, 1), 8) == 692224.0
  {
    RealQuotient((160 * 4096 * 7) as real, 160.0, 28672.0);
  }

  // ----- it is not enough that the vertices lie on different sides

  /** The edge of a side, from its upper and lower ends, its slope and its first and last line. */
  lemma SideValue(t: Tri, i: int, u: Point, w: Point, slope: int, first: int, last: int)
    requires 0 <= i < 3 && u == Upper(SideFrom(t, i), SideTo(t, i)) && w == Lower(SideFrom(t, i), SideTo(t, i))
    requires Odd(w.y) > Odd(u.y) && w.x >= u.x && 0 <= slope < TWO31
    requires var dy := Odd(w.y) - Odd(u.y); slope * dy <= (w.x - u.x) * 0x1_0000 < slope * dy + dy
    requires first == TopLine(SideFrom(t, i), SideTo(t, i), CentreLine(SCISSOR.top))
    requires last == BotLine(SideFrom(t, i), SideTo(t, i), CentreLine(SCISSOR.bottom - 1))
    ensures Sides(SCISSOR, t)[i] == Edge(MovedDown(u.x, Odd(u.y), slope, first), slope, first, last)
  {
    var n, dy := (w.x - u.x) * 0x1_0000, Odd(w.y) - Odd(u.y);
    SideSetUp(SCISSOR, t, i);
    DivModUnique(n, dy, slope, n - slope * dy);
    assert TruncDiv(n, dy) == slope;
    SlopeIsQuotient(w.x - u.x, dy);
    SetUpIs(SideFrom(t, i), SideTo(t, i), CentreLine(SCISSOR.top), CentreLine(SCISSOR.bottom - 1), u, w, Odd(u.y),
            Odd(w.y) - Odd(u.y), first, last, MovedDown(u.x, Odd(u.y), slope, first), slope);
  }

  const SCISSOR: Scissor := Scissor(0, 0, 200, 200)

  /** Both runs begin at the common side 0, and draw pixel x: a is the edge of that side, b and d
      are those of the outer ones. */
  lemma BothDraw(t: Tri, u: Tri, k: int, l: int, n: int, x: int, trace: seq<Visit>, trace': seq<Visit>, a: Edge, b: Edge, d: Edge)
    requires Traced(SCISSOR, t, trace) && Traced(SCISSOR, u, trace') && Seam(SCISSOR, t, 0, k, u, 0, l, n)
    requires a == Sides(SCISSOR, t)[0] && b == Sides(SCISSOR, t)[k] && d == Sides(SCISSOR, u)[l]
    requires FirstAndAround(a, b, n, x) && FirstAndAround(a, d, n, x) && 0 <= x < 200
    ensures Paints(trace, x, n) && Paints(trace', x, n)
  {
    SharedSide(SCISSOR, t, 0, u, 0, n);
    PaintsIs(SCISSOR, t, trace, 0, k, n, x);
    PaintsIs(SCISSOR, u, trace', 0, l, n, x);
  }

  /** Edge a comes before edge b, and pixel x lies between them. */
  predicate FirstAndAround(a: Edge, b: Edge, n: int, x: int) {
    Precedes(a, b) && LineX(a, n) / 0x1_0000 <= x < LineX(b, n) / 0x1_0000
  }

  lemma AroundIs(a: Edge, b: Edge, top: int, top': int, n: int, x: int)
    requires a.yTop == CentreLine(top) && b.yTop == CentreLine(top')
    requires PosX(a, Max(top, top') - top) < PosX(b, Max(top, top') - top')
    requires PosX(a, n - top) / 0x1_0000 <= x < PosX(b, n - top') / 0x1_0000
    ensures FirstAndAround(a, b, n, x)
  {
    var f := FirstShared(a, b);
    assert f == Max(top, top');
    LineIs(a, top, f);
    LineIs(b, top', f);
    LineIs(a, top, n);
    LineIs(b, top', n);
    Compared(a, b, f);
  }

  lemma Compared(a: Edge, b: Edge, f: int)
    requires f == FirstShared(a, b) && LineX(a, f) < LineX(b, f)
    ensures Precedes(a, b)
  {
  }

  lemma LineIs(e: Edge, top: int, n: int)
    requires e.yTop == CentreLine(top)
    ensures LineX(e, n) == PosX(e, n - top)
  {
    assert (CentreLine(n) - e.yTop) / 16 == n - top;
  }

  const TILTED_LEFT: Tri := Tri(Point(63, 84), Point(247, 175), Point(92, 99))
  const TILTED_RIGHT: Tri := Tri(Point(63, 84), Point(247, 175), Point(84, 38))

  lemma TiltedEdge()
    ensures Sides(SCISSOR, TILTED_LEFT)[0] == Edge(315938, 133984, 88, 168)
  {
    SideValue(TILTED_LEFT, 0, Point(63, 84), Point(247, 175), 133984, 88, 168);
  }

  lemma TiltedOuterEdges()
    ensures Sides(SCISSOR, TILTED_LEFT)[2] == Edge(451368, 133658, 104, 168)
    ensures Sides(SCISSOR, TILTED_RIGHT)[2] == Edge(381741, 78546, 40, 168)
  {
    SideValue(TILTED_LEFT, 2, Point(92, 99), Point(247, 175), 133658, 104, 168);
    SideValue(TILTED_RIGHT, 2, Point(84, 38), Point(247, 175), 78546, 40, 168);
  }

  lemma TiltedDraw(trace: seq<Visit>, trace': seq<Visit>)
    requires Traced(SCISSOR, TILTED_LEFT, trace) && Traced(SCISSOR, TILTED_RIGHT, trace')
    ensures Paints(trace, 12, 9) && Paints(trace', 12, 9)
  {
    TiltedEdge();
    TiltedOuterEdges();
    TiltedOrder();
    BothDraw(TILTED_LEFT, TILTED_RIGHT, 2, 2, 9, 12, trace, trace',
             Edge(315938, 133984, 88, 168), Edge(451368, 133658, 104, 168), Edge(381741, 78546, 40, 168));
  }

  lemma TiltedOrder()
    ensures Seam(SCISSOR, TILTED_LEFT, 0, 2, TILTED_RIGHT, 0, 2, 9)
    ensures FirstAndAround(Edge(315938, 133984, 88, 168), Edge(451368, 133658, 104, 168), 9, 12)
    ensures FirstAndAround(Edge(315938, 133984, 88, 168), Edge(381741, 78546, 40, 168), 9, 12)
  {
    AroundIs(Edge(315938, 133984, 88, 168), Edge(451368, 133658, 104, 168), 5, 6, 9, 12);
    AroundIs(Edge(315938, 133984, 88, 168), Edge(381741, 78546, 40, 168), 5, 2, 9, 12);
  }

  lemma TiltedSides()
    ensures !Opposite(TILTED_LEFT, 0, TILTED_RIGHT, 0)
  {
  }

  /** The vertices themselves are strictly on different sides; setting the lowest bit of y takes
      one of them across. */
  method TiltedOverlap() returns (trace: seq<Visit>, trace': seq<Visit>)
    ensures var (p, q, c, d) := (Point(63, 84), Point(247, 175), Point(92, 99), Point(84, 38));
            && TriangleSmall.EdgeFn(p, q, d) > 0 > TriangleSmall.EdgeFn(p, q, c)
            && !Opposite(Tri(p, q, c), 0, Tri(p, q, d), 0)
            && Traced(SCISSOR, Tri(p, q, c), trace) && Traced(SCISSOR, Tri(p, q, d), trace')
            && Paints(trace, 12, 9) && Paints(trace', 12, 9)
  {
    var edges;
    trace, edges := TrianglexBig(SCISSOR, Point(63, 84), Point(247, 175), Point(92, 99));
    trace', edges := TrianglexBig(SCISSOR, Point(63, 84), Point(247, 175), Point(84, 38));
    TiltedSides();
    TiltedDraw(trace, trace');
  }

  const STEEP_LEFT: Tri := Tri(Point(361, 361), Point(30, 29), Point(361, 359))
  const STEEP_RIGHT: Tri := Tri(Point(361, 361), Point(30, 29), Point(345, 345))

  lemma SteepEdge()
    ensures Sides(SCISSOR, STEEP_LEFT)[0] == Edge(200567, 65338, 40, 360)
  {
    SideValue(STEEP_LEFT, 0, Point(30, 29), Point(361, 361), 65338, 40, 360);
  }

  lemma SteepOuterEdges()
    ensures Sides(SCISSOR, STEEP_LEFT)[1] == Edge(1511424, 0, 360, 360)
    ensures Sides(SCISSOR, STEEP_RIGHT)[1] == Edge(1507328, 65536, 360, 360)
  {
    SideValue(STEEP_LEFT, 1, Point(361, 359), Point(361, 361), 0, 360, 360);
    SideValue(STEEP_RIGHT, 1, Point(345, 345), Point(361, 361), 65536, 360, 360);
  }

  lemma SteepDraw(trace: seq<Visit>, trace': seq<Visit>)
    requires Traced(SCISSOR, STEEP_LEFT, trace) && Traced(SCISSOR, STEEP_RIGHT, trace')
    ensures Paints(trace, 22, 22) && Paints(trace', 22, 22)
  {
    SteepEdge();
    SteepOuterEdges();
    SteepOrder();
    BothDraw(STEEP_LEFT, STEEP_RIGHT, 1, 1, 22, 22, trace, trace',
             Edge(200567, 65338, 40, 360), Edge(1511424, 0, 360, 360), Edge(1507328, 65536, 360, 360));
  }

  lemma SteepOrder()
    ensures Seam(SCISSOR, STEEP_LEFT, 0, 1, STEEP_RIGHT, 0, 1, 22)
    ensures FirstAndAround(Edge(200567, 65338, 40, 360), Edge(1511424, 0, 360, 360), 22, 22)
    ensures FirstAndAround(Edge(200567, 65338, 40, 360), Edge(1507328, 65536, 360, 360), 22, 22)
  {
    AroundIs(Edge(200567, 65338, 40, 360), Edge(1511424, 0, 360, 360), 2, 22, 22, 22);
    AroundIs(Edge(200567, 65338, 40, 360), Edge(1507328, 65536, 360, 360), 2, 22, 22, 22);
  }

  lemma SteepOpposite()
    ensures Opposite(STEEP_LEFT, 0, STEEP_RIGHT, 0)
  {
  }

  /** Every y is odd, so that nothing is moved, and the triangles are on different sides: here
      the rounding of the slope exchanges two edges. */
  method SteepOverlap() returns (trace: seq<Visit>, trace': seq<Visit>)
    ensures Opposite(STEEP_LEFT, 0, STEEP_RIGHT, 0)
    ensures Traced(SCISSOR, STEEP_LEFT, trace) && Traced(SCISSOR, STEEP_RIGHT, trace')
    ensures Paints(trace, 22, 22) && Paints(trace', 22, 22)
  {
    var edges;
    trace, edges := TrianglexBig(SCISSOR, Point(361, 361), Point(30, 29), Point(361, 359));
    trace', edges := TrianglexBig(SCISSOR, Point(361, 361), Point(30, 29), Point(345, 345));
    SteepDraw(trace, trace');
    SteepOpposite();
  }
}
