/** libpixelflinger/trap.cpp: trianglex_big, the edge-stepping triangle fill.  Vertices are in
    28.4, edge positions in 16.16. */
module TriangleBig {
  import opened Machine
  import opened Raster
  import Division

  /** A triangle side being stepped: its position, the change per scanline, and the first and
      last centre line it crosses inside the clip rectangle. */
  datatype Edge = Edge(x: int, xIncr: int, yTop: int, yBot: int)

  /** What one scanline passes on: `iterators.y`, the two edge positions, and the run between
      them; the run is drawn when xl < xr. */
  datatype Visit = Visit(y: int, leftX: int, rightX: int, xl: int, xr: int)

  /** y | 1 */
  function Odd(y: int): (r: int)
    ensures r % 2 == 1 && y <= r <= y + 1
  {
    if y % 2 == 0 then y + 1 else y
  }

  function Upper(p: Point, q: Point): Point {
    if p.y > q.y then q else p
  }

  function Lower(p: Point, q: Point): Point {
    if p.y > q.y then p else q
  }

  /** The centre line s separates the end points. */
  predicate Crosses(p: Point, q: Point, s: int) {
    (Odd(p.y) < s) != (Odd(q.y) < s)
  }

  function TopLine(p: Point, q: Point, ymin: int): int {
    var y1 := Odd(Upper(p, q).y);
    if y1 > ymin then SnapNextHalf(y1) else ymin
  }

  function BotLine(p: Point, q: Point, ymax: int): int {
    var y2 := Odd(Lower(p, q).y);
    if y2 < ymax then SnapPrevHalf(y2) else ymax
  }

  /** The source records the edge: it is not flat, meets the clip range and crosses a centre line. */
  predicate Recorded(p: Point, q: Point, ymin: int, ymax: int) {
    var y1, y2 := Odd(Upper(p, q).y), Odd(Lower(p, q).y);
    y2 - y1 != 0 && !(y1 > ymax || y2 < ymin) && TopLine(p, q, ymin) <= BotLine(p, q, ymax)
  }

  /** The early returns only skip edges whose range is empty, and the range is exactly the
      centre lines of the clip rectangle that the edge crosses. */
  lemma RangeIsCrossings(p: Point, q: Point, nmin: int, nmax: int, n: int)
    ensures nmin <= n <= nmax && Crosses(p, q, CentreLine(n)) <==>
              TopLine(p, q, CentreLine(nmin)) <= CentreLine(n) <= BotLine(p, q, CentreLine(nmax))
  {
    var y1, y2, c := Odd(Upper(p, q).y), Odd(Lower(p, q).y), CentreLine(n);
    assert y1 <= y2 && (Crosses(p, q, c) <==> y1 < c && !(y2 < c));
    NextLine(y1, nmin, n);
    PreviousLine(y2, nmax, n);
  }

  lemma NextLine(y: int, nmin: int, n: int)
    requires y % 2 == 1
    ensures nmin <= n && y < CentreLine(n) <==>
              (if y > CentreLine(nmin) then SnapNextHalf(y) else CentreLine(nmin)) <= CentreLine(n)
  {
    var a := SnapLine(y);
  }

  lemma PreviousLine(y: int, nmax: int, n: int)
    requires y % 2 == 1
    ensures n <= nmax && !(y < CentreLine(n)) <==>
              CentreLine(n) <= (if y < CentreLine(nmax) then SnapPrevHalf(y) else CentreLine(nmax))
  {
    var a := SnapLine(y);
  }

  lemma SnapLine(y: int) returns (n: int)
    requires y % 2 == 1
    ensures SnapNextHalf(y) == CentreLine(n) && SnapPrevHalf(y) == CentreLine(n - 1)
    ensures CentreLine(n - 1) < y < CentreLine(n)
  {
    SnapsAreNeighbours(y);
    n :| SnapNextHalf(y) == CentreLine(n) && SnapPrevHalf(y) == CentreLine(n - 1);
  }

  /** The range as scanline numbers: the edge is recorded exactly when it is not empty. */
  lemma RangeLines(p: Point, q: Point, nmin: int, nmax: int) returns (t: int, b: int)
    ensures TopLine(p, q, CentreLine(nmin)) == CentreLine(t) && BotLine(p, q, CentreLine(nmax)) == CentreLine(b)
    ensures Recorded(p, q, CentreLine(nmin), CentreLine(nmax)) <==> t <= b
  {
    var y1, y2 := Odd(Upper(p, q).y), Odd(Lower(p, q).y);
    assert y1 <= y2;
    var a := SnapLine(y1);
    var c := SnapLine(y2);
    t := if y1 > CentreLine(nmin) then a else nmin;
    b := if y2 < CentreLine(nmax) then c - 1 else nmax;
  }

  /** A centre line is crossed by no side of the triangle or by exactly two. */
  lemma CrossedByNoneOrTwo(a: Point, b: Point, c: Point, s: int)
    ensures (Crosses(a, b, s) != Crosses(a, c, s)) <==> Crosses(b, c, s)
    ensures Crosses(a, b, s) || Crosses(a, c, s) || Crosses(b, c, s) <==>
              Min(Odd(a.y), Min(Odd(b.y), Odd(c.y))) < s && !(Max(Odd(a.y), Max(Odd(b.y), Odd(c.y))) < s)
  {
  }

  /** dx/dy in 16.16, by gglDivQ16; a vertical edge skips the division. */
  ghost function SlopeOf(dx: int, dy: int): int
    requires dy > 0
  {
    if dx == 0 then 0 else Wrap32(Division.ScaledQuotient(dx, dy, 16))
  }

  ghost function Slope(p: Point, q: Point): int {
    var dy := Odd(Lower(p, q).y) - Odd(Upper(p, q).y);
    if dy > 0 then SlopeOf(Lower(p, q).x - Upper(p, q).x, dy) else 0
  }

  /** From x1 on line y1, half a pixel added for rounding, to the position on line yTop. */
  function MovedDown(x1: int, y1: int, slope: int, yTop: int): int {
    Wrap32(Wrap32(x1 * 4096 + 32768) + Wrap32(slope * (yTop - y1)) / 16)
  }

  /** The position at the first centre line. */
  ghost function StartX(p: Point, q: Point, ymin: int): int {
    MovedDown(Upper(p, q).x, Odd(Upper(p, q).y), Slope(p, q), TopLine(p, q, ymin))
  }

  ghost function SetUp(p: Point, q: Point, ymin: int, ymax: int): Edge {
    Edge(StartX(p, q, ymin), Slope(p, q), TopLine(p, q, ymin), BotLine(p, q, ymax))
  }

  /** The position k scanlines on. */
  function PosX(e: Edge, k: int): int {
    Wrap32(e.x + k * e.xIncr)
  }

  predicate InRange(p: Point) {
    -TWO31 / 2 < p.x < TWO31 / 2 && -0x1_0000 < p.y < 0x1_0000
  }

  /** edge_setup: append the edge to the array when it crosses a centre line. */
  method EdgeSetup(edges: array<Edge>, count: int, p1: Point, p2: Point, ymin0: int, ymax0: int)
    returns (count': int)
    requires 0 <= count < edges.Length && InRange(p1) && InRange(p2)
    requires exists n :: ymin0 == CentreLine(n)
    modifies edges
    ensures count' == if Recorded(p1, p2, ymin0, ymax0) then count + 1 else count
    ensures Recorded(p1, p2, ymin0, ymax0) ==> edges[count] == SetUp(p1, p2, ymin0, ymax0)
    ensures forall i :: 0 <= i < edges.Length && i != count ==> edges[i] == old(edges[i])
  {
    var top, bot := p1, p2;
    var ymin, ymax := ymin0, ymax0;
    if top.y > bot.y {
      top, bot := bot, top;
    }
    var y1 := Odd(top.y);
    var y2 := Odd(bot.y);
    var dy := y2 - y1;
    if dy == 0 || y1 > ymax || y2 < ymin {
      return count;
    }
    FirstLineBelow(y1, ymin);
    if y1 > ymin {
      ymin := SnapNextHalf(y1);
    }
    if y2 < ymax {
      ymax := SnapPrevHalf(y2);
    }
    if ymin > ymax {
      return count;
    }
    var x, xIncr := EdgeStart(top, bot, y1, dy, ymin);
    SetUpIs(p1, p2, ymin0, ymax0, top, bot, y1, dy, ymin, ymax, x, xIncr);
    edges[count] := Edge(x, xIncr, ymin, ymax);
    count' := count + 1;
  }

  lemma SetUpIs(p: Point, q: Point, ymin: int, ymax: int, top: Point, bot: Point, y1: int, dy: int, yTop: int, yBot: int,
                x: int, xIncr: int)
    requires top == Upper(p, q) && bot == Lower(p, q) && y1 == Odd(top.y) && dy == Odd(bot.y) - y1 && dy > 0
    requires yTop == TopLine(p, q, ymin) && yBot == BotLine(p, q, ymax) && xIncr == SlopeOf(bot.x - top.x, dy)
    requires x == MovedDown(top.x, y1, xIncr, yTop)
    ensures Edge(x, xIncr, yTop, yBot) == SetUp(p, q, ymin, ymax)
  {
  }

  lemma FirstLineBelow(y1: int, ymin: int)
    requires y1 % 2 == 1 && exists n :: ymin == CentreLine(n)
    ensures y1 < if y1 > ymin then SnapNextHalf(y1) else ymin
  {
    SnapsAreNeighbours(y1);
    var n :| ymin == CentreLine(n);
    assert ymin == 2 * (8 * n + 4);
  }

  /** The middle of edge_setup: the slope, and the position moved down to the first line. */
  method EdgeStart(top: Point, bot: Point, y1: int, dy: int, ymin: int) returns (x: int, xIncr: int)
    requires InRange(top) && InRange(bot) && 0 < dy < 0x2_0000 && y1 < ymin
    ensures xIncr == SlopeOf(bot.x - top.x, dy)
    ensures x == MovedDown(top.x, y1, xIncr, ymin)
  {
    var x1 := top.x;
    var dx := bot.x - x1;
    x := Wrap32(x1 * 4096 + 32768);
    xIncr := 0;
    if dx != 0 {
      Division.DivQ16Terminates(dx, dy);
      xIncr := Division.GglDivQ16(dx, dy);
    }
    if y1 < ymin {
      var xadjust := Wrap32(xIncr * (ymin - y1)) / 16;
      x := Wrap32(x + xadjust);
    }
  }

  /** The edges in the order the sweep uses: by position, then by slope. */
  function SweepOrder(l: Edge, r: Edge): (Edge, Edge) {
    if l.x > r.x || (l.x == r.x && l.xIncr > r.xIncr) then (r, l) else (l, r)
  }

  /** The scanline y between positions a and b, clipped horizontally. */
  function VisitOf(s: Scissor, y: int, a: int, b: int): Visit {
    Visit(y, a, b, Max(a / 0x1_0000, s.left), Min(b / 0x1_0000, s.right))
  }

  lemma SplitProduct(c: int, k: int, d: int)
    ensures (c + k) * d == c * d + k * d
  {
  }

  lemma StepPos(e: Edge, k: int)
    ensures Wrap32(PosX(e, k) + e.xIncr) == PosX(e, k + 1)
  {
    WrapAdd(e.x + k * e.xIncr, e.xIncr);
    SplitProduct(k, 1, e.xIncr);
  }

  /** The first k scanlines of a sweep, from y0, between the edges a and b. */
  ghost predicate Swept(s: Scissor, trace: seq<Visit>, y0: int, a: Edge, b: Edge, k: int) {
    |trace| == k && forall i :: 0 <= i < k ==> trace[i] == VisitOf(s, y0 + i, PosX(a, i), PosX(b, i))
  }

  lemma SweptNext(s: Scissor, trace: seq<Visit>, y0: int, a: Edge, b: Edge, k: int)
    requires Swept(s, trace, y0, a, b, k)
    ensures Swept(s, trace + [VisitOf(s, y0 + k, PosX(a, k), PosX(b, k))], y0, a, b, k + 1)
  {
  }

  /** triangle_sweep_edges: one visit per centre line from ytop to ybot, `iterators.y`
      advancing with them, and both edges moved on past the last line. */
  method TriangleSweepEdges(s: Scissor, edges: array<Edge>, l: int, r: int, ytop: int, ybot: int, y0: int)
    returns (trace: seq<Visit>, y: int)
    requires 0 <= l < edges.Length && 0 <= r < edges.Length && l != r
    requires Fits32(edges[l].x) && Fits32(edges[r].x)
    modifies edges
    ensures var count := Max((ybot - ytop) / 16 + 1, 0);
            var ab := SweepOrder(old(edges[l]), old(edges[r]));
            && y == y0 + count
            && Swept(s, trace, y0, ab.0, ab.1, count)
            && edges[l] == old(edges[l]).(x := PosX(old(edges[l]), count))
            && edges[r] == old(edges[r]).(x := PosX(old(edges[r]), count))
    ensures forall i :: 0 <= i < edges.Length && i != l && i != r ==> edges[i] == old(edges[i])
  {
    trace, y := [], y0;
    var count := (ybot - ytop) / 16 + 1;
    if count <= 0 {
      return;
    }
    var left, right := l, r;
    if edges[left].x > edges[right].x ||
       (edges[left].x == edges[right].x && edges[left].xIncr > edges[right].xIncr) {
      left, right := right, left;
    }
    var a, b := edges[left], edges[right];
    edges[left] := a.(x := PosX(a, count));
    edges[right] := b.(x := PosX(b, count));
    trace, y := SweepLoop(s, a, b, count, y0);
  }

  /** The scanline loop: the positions are stepped on int32_t. */
  method SweepLoop(s: Scissor, a: Edge, b: Edge, count: int, y0: int) returns (trace: seq<Visit>, y: int)
    requires count > 0 && Fits32(a.x) && Fits32(b.x)
    ensures y == y0 + count && Swept(s, trace, y0, a, b, count)
  {
    trace, y := [], y0;
    var leftX, rightX := a.x, b.x;
    var k := 0;
    while k < count
      invariant 0 <= k <= count && y == y0 + k
      invariant leftX == PosX(a, k) && rightX == PosX(b, k)
      invariant Swept(s, trace, y0, a, b, k)
    {
      SweptNext(s, trace, y0, a, b, k);
      trace := trace + [VisitOf(s, y, leftX, rightX)];
      StepPos(a, k);
      StepPos(b, k);
      leftX := Wrap32(leftX + a.xIncr);
      rightX := Wrap32(rightX + b.xIncr);
      y := y + 1;
      k := k + 1;
    }
  }

  // ----- scanline ranges

  ghost predicate In(t: int, b: int, n: int) {
    t <= n <= b
  }

  /** Every scanline is in none or two of three ranges. */
  ghost predicate EvenCover(t0: int, b0: int, t1: int, b1: int, t2: int, b2: int) {
    forall n :: (In(t0, b0, n) != In(t1, b1, n)) <==> In(t2, b2, n)
  }

  lemma EvenCoverRotates(t0: int, b0: int, t1: int, b1: int, t2: int, b2: int)
    requires EvenCover(t0, b0, t1, b1, t2, b2)
    ensures EvenCover(t1, b1, t2, b2, t0, b0) && EvenCover(t1, b1, t0, b0, t2, b2)
  {
    forall n
      ensures (In(t1, b1, n) != In(t2, b2, n)) <==> In(t0, b0, n)
      ensures (In(t1, b1, n) != In(t0, b0, n)) <==> In(t2, b2, n)
    {
      assert (In(t0, b0, n) != In(t1, b1, n)) <==> In(t2, b2, n);
    }
  }

  /** With one range empty the other two coincide, or are empty too. */
  lemma TwoRanges(t0: int, b0: int, t1: int, b1: int, t2: int, b2: int)
    requires EvenCover(t0, b0, t1, b1, t2, b2) && t2 > b2
    ensures t0 <= b0 <==> t1 <= b1
    ensures t0 <= b0 ==> t0 == t1 && b0 == b1
  {
    assert forall n :: In(t0, b0, n) == In(t1, b1, n) by {
      forall n
        ensures In(t0, b0, n) == In(t1, b1, n)
      {
        assert !In(t2, b2, n);
      }
    }
    assert In(t0, b0, t0) == In(t1, b1, t0) && In(t0, b0, b0) == In(t1, b1, b0);
    assert In(t0, b0, t1) == In(t1, b1, t1) && In(t0, b0, b1) == In(t1, b1, b1);
  }

  /** With three ranges exactly two start first. */
  lemma ThreeStarts(t0: int, b0: int, t1: int, b1: int, t2: int, b2: int)
    requires EvenCover(t0, b0, t1, b1, t2, b2) && t0 <= b0 && t1 <= b1 && t2 <= b2
    ensures (t0 == t1 < t2) || (t0 == t2 < t1) || (t1 == t2 < t0)
  {
    var n := Min(t0, Min(t1, t2));
    assert (In(t0, b0, n) != In(t1, b1, n)) <==> In(t2, b2, n);
  }

  /** The third follows on from the shorter of the two and ends with the longer. */
  lemma ThreeRanges(t: int, bl: int, br: int, to: int, bo: int)
    requires EvenCover(t, bl, t, br, to, bo) && t <= bl && t <= br && to <= bo && t < to
    ensures bl != br && to == Min(bl, br) + 1 && bo == Max(bl, br)
  {
    var m, x := Min(bl, br), Max(bl, br);
    assert (In(t, bl, to) != In(t, br, to)) <==> In(to, bo, to);
    assert (In(t, bl, bo) != In(t, br, bo)) <==> In(to, bo, bo);
    assert (In(t, bl, m + 1) != In(t, br, m + 1)) <==> In(to, bo, m + 1);
    assert (In(t, bl, x) != In(t, br, x)) <==> In(to, bo, x);
  }

  // ----- the fill

  datatype Tri = Tri(v0: Point, v1: Point, v2: Point)

  /** The sides in the order trianglex_big sets them up. */
  function SideFrom(t: Tri, i: int): Point {
    if i == 2 then t.v1 else t.v0
  }

  function SideTo(t: Tri, i: int): Point {
    if i == 0 then t.v1 else t.v2
  }

  predicate SideCrosses(t: Tri, i: int, n: int) {
    Crosses(SideFrom(t, i), SideTo(t, i), CentreLine(n))
  }

  /** Where an edge stands at scanline n. */
  function LineX(e: Edge, n: int): int {
    PosX(e, (CentreLine(n) - e.yTop) / 16)
  }

  /** The edge when the sweep has reached scanline n. */
  function Advanced(e: Edge, n: int): Edge {
    e.(x := LineX(e, n))
  }

  /** The three sides as edge_setup prepares them, recorded or not. */
  ghost function Sides(s: Scissor, t: Tri): seq<Edge> {
    [SetUp(t.v0, t.v1, CentreLine(s.top), CentreLine(s.bottom - 1)),
     SetUp(t.v0, t.v2, CentreLine(s.top), CentreLine(s.bottom - 1)),
     SetUp(t.v1, t.v2, CentreLine(s.top), CentreLine(s.bottom - 1))]
  }

  /** The first scanline of both edges. */
  function FirstShared(a: Edge, b: Edge): int {
    Max(a.yTop, b.yTop) / 16
  }

  /** Edge a comes before edge b on that scanline, by position and then by slope. */
  predicate Precedes(a: Edge, b: Edge) {
    var n := FirstShared(a, b);
    LineX(a, n) < LineX(b, n) || (LineX(a, n) == LineX(b, n) && a.xIncr <= b.xIncr)
  }

  /** A sweep that starts at scanline n0 with side i on the left and side j on the right: both
      cross every line visited, the first of them is the first that both cross, and there side i
      comes before side j. */
  ghost predicate SweepOf(s: Scissor, t: Tri, sides: seq<Edge>, trace: seq<Visit>, n0: int, i: int, j: int) {
    && |sides| == 3 && 0 <= i < 3 && 0 <= j < 3 && i != j
    && (forall k :: 0 <= k < |trace| ==>
          && SideCrosses(t, i, n0 + k) && SideCrosses(t, j, n0 + k)
          && trace[k] == VisitOf(s, n0 + k, LineX(sides[i], n0 + k), LineX(sides[j], n0 + k)))
    && (trace != [] ==> n0 == FirstShared(sides[i], sides[j]) && Precedes(sides[i], sides[j]))
  }

  ghost predicate TwoSweeps(s: Scissor, t: Tri, sides: seq<Edge>, trace: seq<Visit>, n0: int,
                            m: int, i: int, j: int, i': int, j': int) {
    0 <= m <= |trace| && SweepOf(s, t, sides, trace[..m], n0, i, j) && SweepOf(s, t, sides, trace[m..], n0 + m, i', j')
  }

  ghost predicate Visited(trace: seq<Visit>, n: int) {
    exists k :: 0 <= k < |trace| && trace[k].y == n
  }

  /** The centre line of n lies inside the clip rectangle, strictly between the extreme vertices. */
  predicate Wanted(s: Scissor, t: Tri, n: int) {
    var a, b, c := Odd(t.v0.y), Odd(t.v1.y), Odd(t.v2.y);
    s.top <= n < s.bottom && Min(a, Min(b, c)) < CentreLine(n) < Max(a, Max(b, c))
  }

  lemma PosCompose(e: Edge, c: int, k: int)
    ensures PosX(e.(x := PosX(e, c)), k) == PosX(e, c + k)
  {
    WrapAdd(e.x + c * e.xIncr, k * e.xIncr);
    SplitProduct(c, k, e.xIncr);
  }

  /** Stepping an edge is moving it down the scanlines. */
  lemma AdvancedSteps(e: Edge, first: int, n: int, k: int)
    requires e.yTop == CentreLine(first)
    ensures PosX(Advanced(e, n), k) == LineX(e, n + k)
    ensures Advanced(e, n).(x := PosX(Advanced(e, n), k)) == Advanced(e, n + k)
  {
    assert (CentreLine(n) - e.yTop) / 16 == n - first;
    assert (CentreLine(n + k) - e.yTop) / 16 == n + k - first;
    PosCompose(e, n - first, k);
  }

  lemma AdvancedStart(e: Edge, n: int)
    requires e.yTop == CentreLine(n) && Fits32(e.x)
    ensures Advanced(e, n) == e
  {
    assert (CentreLine(n) - e.yTop) / 16 == 0;
  }

  ghost predicate OnLine(e: Edge) {
    exists n :: e.yTop == CentreLine(n)
  }

  /** What the sweep of two sides' edges promises, in terms of the sides. */
  lemma SweepIsSides(s: Scissor, t: Tri, sides: seq<Edge>, trace: seq<Visit>, n0: int, l: int, r: int)
    returns (i: int, j: int)
    requires |sides| == 3 && 0 <= l < 3 && 0 <= r < 3 && l != r && OnLine(sides[l]) && OnLine(sides[r])
    requires var ab := SweepOrder(Advanced(sides[l], n0), Advanced(sides[r], n0));
             Swept(s, trace, n0, ab.0, ab.1, |trace|)
    requires forall n :: n0 <= n < n0 + |trace| ==> SideCrosses(t, l, n) && SideCrosses(t, r, n)
    requires n0 == FirstShared(sides[l], sides[r])
    ensures SweepOf(s, t, sides, trace, n0, i, j)
  {
    var el, er := Advanced(sides[l], n0), Advanced(sides[r], n0);
    i, j := l, r;
    if el.x > er.x || (el.x == er.x && el.xIncr > er.xIncr) {
      i, j := r, l;
    }
    var fi :| sides[i].yTop == CentreLine(fi);
    var fj :| sides[j].yTop == CentreLine(fj);
    forall k | 0 <= k < |trace|
      ensures trace[k] == VisitOf(s, n0 + k, LineX(sides[i], n0 + k), LineX(sides[j], n0 + k))
    {
      AdvancedSteps(sides[i], fi, n0, k);
      AdvancedSteps(sides[j], fj, n0, k);
    }
  }

  /** Side i crosses the centre line of n, inside the clip rectangle. */
  ghost predicate SideIn(s: Scissor, t: Tri, i: int, n: int) {
    s.top <= n < s.bottom && SideCrosses(t, i, n)
  }

  ghost predicate SideRecorded(s: Scissor, t: Tri, i: int) {
    Recorded(SideFrom(t, i), SideTo(t, i), CentreLine(s.top), CentreLine(s.bottom - 1))
  }

  /** top and bot are the first and last scanline of side i; a side that is not recorded has none. */
  ghost predicate RangeOf(s: Scissor, t: Tri, i: int, top: int, bot: int) {
    && TopLine(SideFrom(t, i), SideTo(t, i), CentreLine(s.top)) == CentreLine(top)
    && BotLine(SideFrom(t, i), SideTo(t, i), CentreLine(s.bottom - 1)) == CentreLine(bot)
    && (SideRecorded(s, t, i) <==> top <= bot)
    && CrossedIn(s, t, i, top, bot)
  }

  lemma SideRange(s: Scissor, t: Tri, i: int) returns (top: int, bot: int)
    ensures RangeOf(s, t, i, top, bot)
  {
    top, bot := RangeLines(SideFrom(t, i), SideTo(t, i), s.top, s.bottom - 1);
    forall n
      ensures In(top, bot, n) <==> SideIn(s, t, i, n)
    {
      RangeIsCrossings(SideFrom(t, i), SideTo(t, i), s.top, s.bottom - 1, n);
    }
  }

  lemma SideSpan(s: Scissor, t: Tri, i: int) returns (top: int, bot: int)
    ensures CrossedIn(s, t, i, top, bot) && (SideRecorded(s, t, i) <==> top <= bot)
  {
    top, bot := SideRange(s, t, i);
  }

  lemma SidesAt(s: Scissor, t: Tri, n: int)
    ensures (SideIn(s, t, 0, n) != SideIn(s, t, 1, n)) <==> SideIn(s, t, 2, n)
    ensures Wanted(s, t, n) <==> SideIn(s, t, 0, n) || SideIn(s, t, 1, n) || SideIn(s, t, 2, n)
  {
    CrossedByNoneOrTwo(t.v0, t.v1, t.v2, CentreLine(n));
  }

  predicate Distinct(i: int, j: int, k: int) {
    0 <= i < 3 && 0 <= j < 3 && 0 <= k < 3 && i != j && j != k && i != k
  }

  lemma SidesAtInOrder(s: Scissor, t: Tri, i: int, j: int, k: int, n: int)
    requires Distinct(i, j, k)
    ensures (SideIn(s, t, i, n) != SideIn(s, t, j, n)) <==> SideIn(s, t, k, n)
    ensures Wanted(s, t, n) <==> SideIn(s, t, i, n) || SideIn(s, t, j, n) || SideIn(s, t, k, n)
  {
    SidesAt(s, t, n);
  }

  ghost predicate CrossedIn(s: Scissor, t: Tri, i: int, top: int, bot: int) {
    forall n :: In(top, bot, n) <==> SideIn(s, t, i, n)
  }

  lemma RangesCoverEvenly(s: Scissor, t: Tri, i: int, j: int, k: int,
                          ti: int, bi: int, tj: int, bj: int, tk: int, bk: int)
    requires Distinct(i, j, k)
    requires CrossedIn(s, t, i, ti, bi) && CrossedIn(s, t, j, tj, bj) && CrossedIn(s, t, k, tk, bk)
    ensures EvenCover(ti, bi, tj, bj, tk, bk)
    ensures forall n :: Wanted(s, t, n) <==> In(ti, bi, n) || In(tj, bj, n) || In(tk, bk, n)
  {
    forall n
      ensures (In(ti, bi, n) != In(tj, bj, n)) <==> In(tk, bk, n)
      ensures Wanted(s, t, n) <==> In(ti, bi, n) || In(tj, bj, n) || In(tk, bk, n)
    {
      SidesAtInOrder(s, t, i, j, k, n);
    }
  }

  /** Sides i and j are in use together on every scanline from n0 to n1. */
  ghost predicate Together(s: Scissor, t: Tri, i: int, j: int, n0: int, n1: int) {
    forall n :: n0 <= n <= n1 ==> SideIn(s, t, i, n) && SideIn(s, t, j, n)
  }

  /** Two recorded sides: they span the same scanlines, and these are all that is wanted. */
  lemma PairPlan(s: Scissor, t: Tri, i: int, j: int, k: int) returns (top: int, bot: int)
    requires Distinct(i, j, k) && SideRecorded(s, t, i) && SideRecorded(s, t, j) && !SideRecorded(s, t, k)
    ensures RangeOf(s, t, i, top, bot) && RangeOf(s, t, j, top, bot) && top <= bot
    ensures Together(s, t, i, j, top, bot)
    ensures forall n :: Wanted(s, t, n) <==> top <= n <= bot
  {
    var tj, bj, tk, bk;
    top, bot := SideRange(s, t, i);
    tj, bj := SideRange(s, t, j);
    tk, bk := SideRange(s, t, k);
    RangesCoverEvenly(s, t, i, j, k, top, bot, tj, bj, tk, bk);
    TwoRanges(top, bot, tj, bj, tk, bk);
    forall n
      ensures Wanted(s, t, n) <==> top <= n <= bot
      ensures top <= n <= bot ==> SideIn(s, t, i, n) && SideIn(s, t, j, n)
    {
      assert In(top, bot, n) <==> SideIn(s, t, i, n);
      assert In(tj, bj, n) <==> SideIn(s, t, j, n);
      assert !In(tk, bk, n);
    }
  }

  /** Three recorded sides, l and r starting first: the third takes over where the shorter one
      stops and ends with the longer one. */
  lemma TriplePlan(s: Scissor, t: Tri, l: int, r: int, o: int, top: int, bl: int, br: int, to: int, bo: int)
    requires Distinct(l, r, o)
    requires CrossedIn(s, t, l, top, bl) && CrossedIn(s, t, r, top, br) && CrossedIn(s, t, o, to, bo)
    requires top <= bl && top <= br && top < to <= bo
    ensures bl != br && to == Min(bl, br) + 1 && bo == Max(bl, br)
    ensures Together(s, t, l, r, top, Min(bl, br))
    ensures Together(s, t, if bl < br then r else l, o, Min(bl, br) + 1, Max(bl, br))
    ensures forall n :: Wanted(s, t, n) <==> top <= n <= Max(bl, br)
  {
    RangesCoverEvenly(s, t, l, r, o, top, bl, top, br, to, bo);
    ThreeRanges(top, bl, br, to, bo);
    forall n
      ensures top <= n <= Min(bl, br) ==> SideIn(s, t, l, n) && SideIn(s, t, r, n)
      ensures to <= n <= bo ==> SideIn(s, t, if bl < br then r else l, n) && SideIn(s, t, o, n)
      ensures Wanted(s, t, n) <==> top <= n <= bo
    {
      assert In(top, bl, n) <==> SideIn(s, t, l, n);
      assert In(top, br, n) <==> SideIn(s, t, r, n);
      assert In(to, bo, n) <==> SideIn(s, t, o, n);
    }
  }

  lemma NeverOne(t0: int, b0: int, t1: int, b1: int, t2: int, b2: int)
    requires EvenCover(t0, b0, t1, b1, t2, b2)
    ensures t0 <= b0 ==> t1 <= b1 || t2 <= b2
  {
    assert (In(t0, b0, t0) != In(t1, b1, t0)) <==> In(t2, b2, t0);
  }

  /** The recorded count is 0, 2 or 3, and 0 only when nothing is wanted. */
  lemma RecordedCount(s: Scissor, t: Tri)
    ensures var n := |Ids(SideRecorded(s, t, 0), SideRecorded(s, t, 1), SideRecorded(s, t, 2))|;
            n != 1 && (n == 0 ==> forall y :: !Wanted(s, t, y))
  {
    var t0, b0 := SideSpan(s, t, 0);
    var t1, b1 := SideSpan(s, t, 1);
    var t2, b2 := SideSpan(s, t, 2);
    RangesCoverEvenly(s, t, 0, 1, 2, t0, b0, t1, b1, t2, b2);
    EvenCoverRotates(t0, b0, t1, b1, t2, b2);
    EvenCoverRotates(t1, b1, t2, b2, t0, b0);
    NeverOne(t0, b0, t1, b1, t2, b2);
    NeverOne(t1, b1, t2, b2, t0, b0);
    NeverOne(t2, b2, t0, b0, t1, b1);
    IdCount(t0 <= b0, t1 <= b1, t2 <= b2);
  }

  lemma IdCount(r0: bool, r1: bool, r2: bool)
    ensures |Ids(r0, r1, r2)| == (if r0 then 1 else 0) + (if r1 then 1 else 0) + (if r2 then 1 else 0)
  {
  }

  /** The sides' vertical ranges are those of the triangle. */
  ghost predicate Ranged(s: Scissor, t: Tri, sides: seq<Edge>) {
    && |sides| == 3
    && (forall i :: 0 <= i < 3 ==>
          && Fits32(sides[i].x)
          && sides[i].yTop == TopLine(SideFrom(t, i), SideTo(t, i), CentreLine(s.top))
          && sides[i].yBot == BotLine(SideFrom(t, i), SideTo(t, i), CentreLine(s.bottom - 1)))
  }

  lemma SidesRanged(s: Scissor, t: Tri)
    ensures Ranged(s, t, Sides(s, t))
  {
  }

  /** The first entries of the array are the edges of the sides in ids. */
  ghost predicate Holds(edges: seq<Edge>, sides: seq<Edge>, ids: seq<int>) {
    && |ids| <= |edges|
    && (forall k :: 0 <= k < |ids| ==> 0 <= ids[k] < |sides| && edges[k] == sides[ids[k]])
  }

  method SetUpSide(edges: array<Edge>, p: Point, q: Point, ymin: int, ymax: int, count: int,
                   ghost s: Scissor, ghost t: Tri, ghost i: int, ghost ids: seq<int>)
    returns (count': int, ghost ids': seq<int>)
    requires 0 <= i < 3 && p == SideFrom(t, i) && q == SideTo(t, i) && InRange(p) && InRange(q)
    requires ymin == CentreLine(s.top) && ymax == CentreLine(s.bottom - 1)
    requires |ids| == count < edges.Length && Holds(edges[..], Sides(s, t), ids)
    modifies edges
    ensures ids' == (if SideRecorded(s, t, i) then ids + [i] else ids) && count' == |ids'| <= edges.Length
    ensures Holds(edges[..], Sides(s, t), ids')
  {
    ghost var before := edges[..];
    count' := EdgeSetup(edges, count, p, q, ymin, ymax);
    ids' := if SideRecorded(s, t, i) then ids + [i] else ids;
    assert forall k :: 0 <= k < |ids| ==> edges[..][k] == before[k];
  }

  ghost function Ids(r0: bool, r1: bool, r2: bool): seq<int> {
    var a := if r0 then [0] else [];
    var b := if r1 then a + [1] else a;
    if r2 then b + [2] else b
  }

  /** The three calls of edge_setup. */
  method SetUpEdges(edges: array<Edge>, s: Scissor, t: Tri) returns (num: int, ghost ids: seq<int>, ghost sides: seq<Edge>)
    requires edges.Length == 3 && InRange(t.v0) && InRange(t.v1) && InRange(t.v2)
    modifies edges
    ensures ids == Ids(SideRecorded(s, t, 0), SideRecorded(s, t, 1), SideRecorded(s, t, 2)) && num == |ids|
    ensures sides == Sides(s, t) && Ranged(s, t, sides) && Holds(edges[..], sides, ids)
  {
    var ymin := CentreLine(s.top);
    var ymax := 16 * s.bottom - 8;
    sides := Sides(s, t);
    SidesRanged(s, t);
    num, ids := SetUpSide(edges, t.v0, t.v1, ymin, ymax, 0, s, t, 0, []);
    num, ids := SetUpSide(edges, t.v0, t.v2, ymin, ymax, num, s, t, 1, ids);
    num, ids := SetUpSide(edges, t.v1, t.v2, ymin, ymax, num, s, t, 2, ids);
  }

  /** What the choice of edges amounts to: sides il and ir start on scanline `top`, and if one
      ends earlier, side io starts on the next scanline and stays to the end. */
  ghost predicate Chosen(s: Scissor, t: Tri, sides: seq<Edge>, edges: seq<Edge>, left: int, right: int, other: int,
                         yTop: int, yBot: int, il: int, ir: int, io: int, top: int, bl: int, br: int) {
    && |edges| == 3 && |sides| == 3 && Distinct(left, right, other) && Distinct(il, ir, io)
    && top <= Min(bl, br) && yTop == CentreLine(top) && yBot == CentreLine(Max(bl, br))
    && OnLine(sides[0]) && OnLine(sides[1]) && OnLine(sides[2])
    && edges[left] == Advanced(sides[il], top) && edges[left].yTop == yTop && edges[left].yBot == CentreLine(bl)
    && edges[right] == Advanced(sides[ir], top) && edges[right].yTop == yTop && edges[right].yBot == CentreLine(br)
    && Together(s, t, il, ir, top, Min(bl, br))
    && (forall n :: Wanted(s, t, n) <==> top <= n <= Max(bl, br))
    && (bl != br ==>
          && edges[other] == Advanced(sides[io], Min(bl, br) + 1)
          && edges[other].yTop == CentreLine(Min(bl, br) + 1)
          && Together(s, t, if bl < br then ir else il, io, Min(bl, br) + 1, Max(bl, br)))
  }

  /** The third edge starts on the first line of the second sweep, so that the source's test
      `other->y_top < y_mid` always fails there and the edge need not be moved on. */
  lemma NothingToCatchUp(s: Scissor, t: Tri, sides: seq<Edge>, edges: seq<Edge>, left: int, right: int, other: int,
                         yTop: int, yBot: int, il: int, ir: int, io: int, top: int, bl: int, br: int)
    requires Chosen(s, t, sides, edges, left, right, other, yTop, yBot, il, ir, io, top, bl, br)
    ensures var yMid := Min(edges[left].yBot, edges[right].yBot) + 16;
            (yMid <= yBot <==> bl != br) && (yMid <= yBot ==> edges[other].yTop == yMid)
  {
    assert CentreLine(Min(bl, br) + 1) == CentreLine(Min(bl, br)) + 16;
  }

  /** A recorded side that starts on scanline `top`. */
  lemma SideReady(s: Scissor, t: Tri, sides: seq<Edge>, i: int, top: int, bot: int)
    requires Ranged(s, t, sides) && 0 <= i < 3 && RangeOf(s, t, i, top, bot)
    ensures Advanced(sides[i], top) == sides[i]
    ensures sides[i].yTop == CentreLine(top) && sides[i].yBot == CentreLine(bot)
  {
    AdvancedStart(sides[i], top);
  }

  lemma AllOnLine(s: Scissor, t: Tri, sides: seq<Edge>)
    requires Ranged(s, t, sides)
    ensures OnLine(sides[0]) && OnLine(sides[1]) && OnLine(sides[2])
  {
    var t0, b0 := SideRange(s, t, 0);
    var t1, b1 := SideRange(s, t, 1);
    var t2, b2 := SideRange(s, t, 2);
  }

  /** With two recorded edges the sides end together and no third edge is needed. */
  lemma ChoosePair(s: Scissor, t: Tri, sides: seq<Edge>, edges: seq<Edge>, i: int, j: int, k: int)
    returns (top: int, bot: int)
    requires |edges| == 3 && Ranged(s, t, sides) && Distinct(i, j, k) && edges[0] == sides[i] && edges[1] == sides[j]
    requires SideRecorded(s, t, i) && SideRecorded(s, t, j) && !SideRecorded(s, t, k)
    ensures Chosen(s, t, sides, edges, 0, 1, 2, Min(edges[0].yTop, edges[1].yTop), Max(edges[0].yBot, edges[1].yBot),
                   i, j, k, top, bot, bot)
  {
    top, bot := PairPlan(s, t, i, j, k);
    SideReady(s, t, sides, i, top, bot);
    SideReady(s, t, sides, j, top, bot);
    AllOnLine(s, t, sides);
  }

  lemma ChooseTriple(s: Scissor, t: Tri, sides: seq<Edge>, l: int, r: int, o: int,
                     top: int, bl: int, br: int, to: int, bo: int)
    requires Ranged(s, t, sides) && Distinct(l, r, o)
    requires RangeOf(s, t, l, top, bl) && RangeOf(s, t, r, top, br) && RangeOf(s, t, o, to, bo)
    requires top <= bl && top <= br && top < to <= bo
    ensures Chosen(s, t, sides, sides, l, r, o, CentreLine(top), CentreLine(Max(bo, Max(bl, br))), l, r, o, top, bl, br)
  {
    TriplePlan(s, t, l, r, o, top, bl, br, to, bo);
    SideReady(s, t, sides, l, top, bl);
    SideReady(s, t, sides, r, top, br);
    SideReady(s, t, sides, o, to, bo);
    AllOnLine(s, t, sides);
  }

  /** The pointer juggling after edge_setup: which edges start first, and the whole range. */
  method SelectEdges(edges: array<Edge>, num: int, s: Scissor, ghost t: Tri, ghost sides: seq<Edge>, ghost ids: seq<int>)
    returns (left: int, right: int, other: int, yTop: int, yBot: int,
             ghost il: int, ghost ir: int, ghost io: int, ghost top: int, ghost bl: int, ghost br: int)
    requires edges.Length == 3 && num == |ids| && num >= 2 && Ranged(s, t, sides) && Holds(edges[..], sides, ids)
    requires ids == Ids(SideRecorded(s, t, 0), SideRecorded(s, t, 1), SideRecorded(s, t, 2))
    ensures Chosen(s, t, sides, edges[..], left, right, other, yTop, yBot, il, ir, io, top, bl, br)
  {
    left, right, other := 0, 1, 2;
    yTop := Min(edges[0].yTop, edges[1].yTop);
    yBot := Max(edges[0].yBot, edges[1].yBot);
    if num == 3 {
      yTop := Min(yTop, edges[2].yTop);
      yBot := Max(yBot, edges[2].yBot);
      if edges[0].yTop > yTop {
        other, left := 0, 2;
      } else if edges[1].yTop > yTop {
        other, right := 1, 2;
      }
      il, ir, io := left, right, other;
      TripleIds(SideRecorded(s, t, 0), SideRecorded(s, t, 1), SideRecorded(s, t, 2), ids);
      HeldInOrder(edges[..], sides);
      top, bl, br := TripleChoice(s, t, sides);
    } else {
      il, ir, io := PairIds(SideRecorded(s, t, 0), SideRecorded(s, t, 1), SideRecorded(s, t, 2), ids);
      top, bl := ChoosePair(s, t, sides, edges[..], il, ir, io);
      br := bl;
    }
  }

  lemma PairIds(r0: bool, r1: bool, r2: bool, ids: seq<int>) returns (i: int, j: int, k: int)
    requires ids == Ids(r0, r1, r2) && |ids| == 2
    ensures Distinct(i, j, k) && ids == [i, j]
    ensures (if i == 0 then r0 else if i == 1 then r1 else r2) && (if j == 0 then r0 else if j == 1 then r1 else r2)
    ensures !(if k == 0 then r0 else if k == 1 then r1 else r2)
  {
    i, j := ids[0], ids[1];
    k := 3 - i - j;
  }

  lemma TripleIds(r0: bool, r1: bool, r2: bool, ids: seq<int>)
    requires ids == Ids(r0, r1, r2) && |ids| == 3
    ensures r0 && r1 && r2 && ids == [0, 1, 2]
  {
  }

  lemma HeldInOrder(edges: seq<Edge>, sides: seq<Edge>)
    requires |edges| == 3 && |sides| == 3 && Holds(edges, sides, [0, 1, 2])
    ensures edges == sides
  {
    assert edges[0] == sides[[0, 1, 2][0]] && edges[1] == sides[[0, 1, 2][1]] && edges[2] == sides[[0, 1, 2][2]];
  }

  /** With three recorded edges the choice finds the two that start first. */
  lemma TripleChoice(s: Scissor, t: Tri, e: seq<Edge>) returns (top: int, bl: int, br: int)
    requires Ranged(s, t, e) && SideRecorded(s, t, 0) && SideRecorded(s, t, 1) && SideRecorded(s, t, 2)
    ensures var yTop, yBot := Min(Min(e[0].yTop, e[1].yTop), e[2].yTop), Max(Max(e[0].yBot, e[1].yBot), e[2].yBot);
            var l := if e[0].yTop > yTop then 2 else 0;
            var r := if e[0].yTop <= yTop && e[1].yTop > yTop then 2 else 1;
            var o := if e[0].yTop > yTop then 0 else if e[1].yTop > yTop then 1 else 2;
            Chosen(s, t, e, e, l, r, o, yTop, yBot, l, r, o, top, bl, br)
  {
    var t0, b0 := SideRange(s, t, 0);
    var t1, b1 := SideRange(s, t, 1);
    var t2, b2 := SideRange(s, t, 2);
    RangesCoverEvenly(s, t, 0, 1, 2, t0, b0, t1, b1, t2, b2);
    ThreeStarts(t0, b0, t1, b1, t2, b2);
    if t0 > t1 {
      top, bl, br := t1, b2, b1;
      ChooseTriple(s, t, e, 2, 1, 0, t1, b2, b1, t0, b0);
    } else if t1 > t0 {
      top, bl, br := t0, b0, b2;
      ChooseTriple(s, t, e, 0, 2, 1, t0, b0, b2, t1, b1);
    } else {
      top, bl, br := t0, b0, b1;
      ChooseTriple(s, t, e, 0, 1, 2, t0, b0, b1, t2, b2);
    }
  }

  /** A sweep from scanline n0 to n1 between the edges of sides il and ir. */
  method SweepSides(s: Scissor, edges: array<Edge>, l: int, r: int, ytop: int, ybot: int, y0: int,
                    ghost t: Tri, ghost sides: seq<Edge>, ghost il: int, ghost ir: int, ghost n0: int, ghost n1: int)
    returns (trace: seq<Visit>, y: int, ghost i: int, ghost j: int)
    requires edges.Length == 3 && 0 <= l < 3 && 0 <= r < 3 && l != r
    requires |sides| == 3 && 0 <= il < 3 && 0 <= ir < 3 && il != ir && OnLine(sides[il]) && OnLine(sides[ir])
    requires edges[l] == Advanced(sides[il], n0) && edges[r] == Advanced(sides[ir], n0)
    requires ytop == CentreLine(n0) && ybot == CentreLine(n1) && y0 == n0 <= n1
    requires Together(s, t, il, ir, n0, n1) && n0 == FirstShared(sides[il], sides[ir])
    modifies edges
    ensures SweepOf(s, t, sides, trace, n0, i, j) && |trace| == n1 - n0 + 1 && y == n1 + 1
    ensures edges[l] == Advanced(sides[il], n1 + 1) && edges[r] == Advanced(sides[ir], n1 + 1)
    ensures forall k :: 0 <= k < 3 && k != l && k != r ==> edges[k] == old(edges[k])
  {
    assert (ybot - ytop) / 16 + 1 == n1 - n0 + 1;
    trace, y := TriangleSweepEdges(s, edges, l, r, ytop, ybot, y0);
    forall n | n0 <= n < n0 + |trace|
      ensures SideCrosses(t, il, n) && SideCrosses(t, ir, n)
    {
      assert SideIn(s, t, il, n);
    }
    i, j := SweepIsSides(s, t, sides, trace, n0, il, ir);
    ghost var fl :| sides[il].yTop == CentreLine(fl);
    ghost var fr :| sides[ir].yTop == CentreLine(fr);
    AdvancedSteps(sides[il], fl, n0, n1 - n0 + 1);
    AdvancedSteps(sides[ir], fr, n0, n1 - n0 + 1);
  }

  lemma SweepsJoin(s: Scissor, t: Tri, sides: seq<Edge>, first: seq<Visit>, rest: seq<Visit>, top: int,
                   i: int, j: int, i': int, j': int)
    requires SweepOf(s, t, sides, first, top, i, j) && SweepOf(s, t, sides, rest, top + |first|, i', j')
    ensures TwoSweeps(s, t, sides, first + rest, top, |first|, i, j, i', j')
  {
    assert (first + rest)[..|first|] == first && (first + rest)[|first|..] == rest;
  }

  /** A pair of sweeps visits consecutive scanlines. */
  lemma VisitsAre(s: Scissor, t: Tri, sides: seq<Edge>, trace: seq<Visit>, top: int, m: int,
                  i: int, j: int, i': int, j': int)
    requires TwoSweeps(s, t, sides, trace, top, m, i, j, i', j')
    ensures forall k :: 0 <= k < |trace| ==> trace[k].y == top + k
    ensures forall n :: Visited(trace, n) <==> top <= n < top + |trace|
  {
    forall k | 0 <= k < |trace|
      ensures trace[k].y == top + k
    {
      if k < m {
        assert trace[k] == trace[..m][k];
      } else {
        assert trace[k] == trace[m..][k - m];
      }
    }
    forall n
      ensures Visited(trace, n) <==> top <= n < top + |trace|
    {
      if top <= n < top + |trace| {
        assert trace[n - top].y == n;
      }
    }
  }

  /** The source's adjustment of a third edge that started above the second sweep. */
  method CatchUp(edges: array<Edge>, other: int, yMid: int)
    requires 0 <= other < edges.Length
    modifies edges
    ensures edges[other].yTop >= yMid ==> edges[other] == old(edges[other])
    ensures edges[other].yTop < yMid ==>
      edges[other] == old(edges[other]).(x := Wrap32(old(edges[other]).x + old(edges[other]).xIncr))
    ensures edges[other].yTop == old(edges[other].yTop)
    ensures forall k :: 0 <= k < edges.Length && k != other ==> edges[k] == old(edges[k])
  {
    if edges[other].yTop < yMid {
      edges[other] := edges[other].(x := Wrap32(edges[other].x + edges[other].xIncr));
    }
  }

  /** The second sweep: the third edge replaces the one that has ended. */
  method SweepRest(s: Scissor, edges: array<Edge>, left0: int, right0: int, other: int, yMid: int, yBot: int, y0: int,
                   ghost t: Tri, ghost sides: seq<Edge>, ghost il: int, ghost ir: int, ghost io: int, ghost bl: int, ghost br: int)
    returns (rest: seq<Visit>, y: int, ghost i': int, ghost j': int)
    requires edges.Length == 3 && |sides| == 3 && Distinct(left0, right0, other) && Distinct(il, ir, io)
    requires OnLine(sides[0]) && OnLine(sides[1]) && OnLine(sides[2])
    requires bl != br && y0 == Min(bl, br) + 1 && yMid == CentreLine(y0) && yBot == CentreLine(Max(bl, br))
    requires edges[left0] == Advanced(sides[il], y0) && edges[left0].yTop < yMid && edges[left0].yBot == CentreLine(bl)
    requires edges[right0] == Advanced(sides[ir], y0) && edges[right0].yTop < yMid && edges[right0].yBot == CentreLine(br)
    requires edges[other] == Advanced(sides[io], y0) && edges[other].yTop == yMid
    requires Together(s, t, if bl < br then ir else il, io, y0, Max(bl, br))
    modifies edges
    ensures SweepOf(s, t, sides, rest, y0, i', j') && |rest| == Max(bl, br) - y0 + 1
  {
    var left, right := left0, right0;
    if edges[left].yBot == yBot {
      right := other;
    } else {
      left := other;
    }
    CatchUp(edges, other, yMid);
    rest, y, i', j' := SweepSides(s, edges, left, right, yMid, yBot, y0, t, sides,
                                  if bl < br then io else il, if bl < br then ir else io, y0, Max(bl, br));
  }

  /** The two sweeps, from the edges chosen. */
  method SweepAll(s: Scissor, edges: array<Edge>, left: int, right: int, other: int, yTop: int, yBot: int,
                  ghost t: Tri, ghost sides: seq<Edge>, ghost il: int, ghost ir: int, ghost io: int,
                  ghost top: int, ghost bl: int, ghost br: int)
    returns (trace: seq<Visit>, ghost m: int, ghost i: int, ghost j: int, ghost i': int, ghost j': int)
    requires edges.Length == 3
    requires Chosen(s, t, sides, edges[..], left, right, other, yTop, yBot, il, ir, io, top, bl, br)
    modifies edges
    ensures |trace| == Max(bl, br) - top + 1 && TwoSweeps(s, t, sides, trace, top, m, i, j, i', j')
  {
    var y := yTop / 16;               // init_y
    var yMid := Min(edges[left].yBot, edges[right].yBot);
    var first;
    first, y, i, j := SweepSides(s, edges, left, right, yTop, yMid, y, t, sides, il, ir, top, Min(bl, br));
    yMid := yMid + 16;
    var rest := [];
    i', j' := i, j;
    if yMid <= yBot {
      rest, y, i', j' := SweepRest(s, edges, left, right, other, yMid, yBot, y, t, sides, il, ir, io, bl, br);
    }
    trace, m := first + rest, |first|;
    SweepsJoin(s, t, sides, first, rest, top, i, j, i', j');
  }

  /** The scanlines visited are those wanted, downward, in at most two sweeps between the sides
      that cross them. */
  ghost predicate Traced(s: Scissor, t: Tri, trace: seq<Visit>) {
    && (forall n :: Visited(trace, n) <==> Wanted(s, t, n))
    && (forall k :: 0 <= k < |trace| ==> trace[k].y == trace[0].y + k)
    && (trace != [] ==> exists m, i, j, i', j' :: TwoSweeps(s, t, Sides(s, t), trace, trace[0].y, m, i, j, i', j'))
  }

  lemma SweepsTraced(s: Scissor, t: Tri, sides: seq<Edge>, trace: seq<Visit>, top: int, bot: int, m: int,
                     i: int, j: int, i': int, j': int)
    requires sides == Sides(s, t) && TwoSweeps(s, t, sides, trace, top, m, i, j, i', j')
    requires |trace| == bot - top + 1 > 0 && forall n :: Wanted(s, t, n) <==> top <= n <= bot
    ensures Traced(s, t, trace)
  {
    VisitsAre(s, t, sides, trace, top, m, i, j, i', j');
    assert trace[0].y == top;
  }

  /** trianglex_big.  Returned beside the trace of scanlines: the number of recorded edges.
      Every centre line of the clip rectangle strictly between the extreme vertices is visited,
      once and downward, with `iterators.y` at its scanline, between exactly the two sides that
      cross it, in at most two sweeps. */
  method TrianglexBig(s: Scissor, v0: Point, v1: Point, v2: Point) returns (trace: seq<Visit>, numEdges: int)
    requires InRange(v0) && InRange(v1) && InRange(v2)
    ensures numEdges == 0 || numEdges == 2 || numEdges == 3
    ensures Traced(s, Tri(v0, v1, v2), trace)
  {
    trace := [];
    var edges := new Edge[3];
    ghost var t := Tri(v0, v1, v2);
    ghost var ids, sides, il, ir, io, top, bl, br, m, i, j, i', j';
    numEdges, ids, sides := SetUpEdges(edges, s, Tri(v0, v1, v2));
    RecordedCount(s, t);
    if numEdges < 2 {
      return;
    }
    var left, right, other, yTop, yBot;
    left, right, other, yTop, yBot, il, ir, io, top, bl, br := SelectEdges(edges, numEdges, s, t, sides, ids);
    trace, m, i, j, i', j' := SweepAll(s, edges, left, right, other, yTop, yBot, t, sides, il, ir, io, top, bl, br);
    SweepsTraced(s, t, sides, trace, top, Max(bl, br), m, i, j, i', j');
  }

  // ----- how far an edge position is from the exact crossing

  /** An edge of slope dx/dy from (x1, y1), at the centre line `line` when the first one is yTop:
      the position before any conversion to int32_t. */
  function Unwrapped(x1: int, y1: int, slope: int, yTop: int, line: int): int {
    x1 * 4096 + 32768 + slope * (yTop - y1) / 16 + ((line - yTop) / 16) * slope
  }

  /** No conversion to int32_t changes a value. */
  predicate EdgeFits(x1: int, y1: int, dx: int, dy: int, yTop: int, line: int)
    requires dy > 0
  {
    var slope := TruncDiv(dx * 0x1_0000, dy);
    && Fits32(slope) && Fits32(x1 * 4096 + 32768) && Fits32(slope * (yTop - y1))
    && Fits32(Unwrapped(x1, y1, slope, yTop, yTop)) && Fits32(Unwrapped(x1, y1, slope, yTop, line))
  }

  lemma TruncRemainder(a: int, d: int)
    requires d > 0
    ensures -d < a - d * TruncDiv(a, d) < d
    ensures a >= 0 ==> d * TruncDiv(a, d) <= a
    ensures a < 0 ==> d * TruncDiv(a, d) >= a
  {
    var q := Abs(a) / d;
    DivBounds(Abs(a), d);
    assert d * q == q * d && d * -q == -(q * d) && (q + 1) * d == q * d + d;
  }

  /** Sixteen times the distance from the start is the slope times the height, less a floor. */
  lemma DistanceFromStart(x1: int, y1: int, slope: int, yTop: int, line: int) returns (floor: int)
    requires (line - yTop) % 16 == 0
    ensures 0 <= floor < 16
    ensures 16 * (Unwrapped(x1, y1, slope, yTop, line) - (x1 * 4096 + 32768)) == slope * (line - y1) - floor
  {
    var a, k := slope * (yTop - y1), (line - yTop) / 16;
    floor := a % 16;
    assert line - yTop == 16 * k;
    assert slope * (line - y1) == a + slope * (16 * k);
    assert slope * (16 * k) == 16 * (k * slope);
  }

  /** 16 * dy times the distance of position x from the exact crossing. */
  function OffBy(x: int, x1: int, y1: int, dx: int, dy: int, line: int): nat {
    Abs(16 * dy * (x - (x1 * 4096 + 32768)) - dx * 0x1_0000 * (line - y1))
  }

  lemma ErrorBound(x1: int, y1: int, dx: int, dy: int, yTop: int, line: int)
    requires dy > 0 && y1 < line && (line - yTop) % 16 == 0
    ensures var x := Unwrapped(x1, y1, TruncDiv(dx * 0x1_0000, dy), yTop, line);
            OffBy(x, x1, y1, dx, dy, line) < dy * (16 + (line - y1))
  {
    var slope, h := TruncDiv(dx * 0x1_0000, dy), line - y1;
    var floor := DistanceFromStart(x1, y1, slope, yTop, line);
    var rest := dx * 0x1_0000 - dy * slope;
    TruncRemainder(dx * 0x1_0000, dy);
    var d := Unwrapped(x1, y1, slope, yTop, line) - (x1 * 4096 + 32768);
    ErrorTerms(d, dy, slope, h, floor, dx * 0x1_0000, rest);
    ErrorSize(dy, h, floor, rest);
  }

  lemma ErrorTerms(d: int, dy: int, slope: int, h: int, floor: int, n: int, rest: int)
    requires 16 * d == slope * h - floor && rest == n - dy * slope
    ensures 16 * dy * d - n * h == -(rest * h) - dy * floor
  {
    assert 16 * dy * d == dy * (slope * h) - dy * floor by {
      assert dy * (16 * d) == dy * (slope * h - floor);
    }
    assert dy * (slope * h) == (dy * slope) * h == (n - rest) * h;
  }

  lemma ErrorSize(dy: int, h: int, floor: int, rest: int)
    requires dy > 0 && h > 0 && 0 <= floor < 16 && -dy < rest < dy
    ensures Abs(-(rest * h) - dy * floor) < dy * (16 + h)
  {
    MulStrict(rest, dy, h);
    MulStrict(-dy, rest, h);
    MulStrict(floor, 16, dy);
    MulMonotone(0, floor, dy);
    assert (-dy) * h == -(dy * h);
  }

  /** On every scanline the edge's position is within 1 + (s - y1)/16 units of 2^-16 pixel of
      the exact crossing, half a pixel added for rounding. */
  lemma EdgeError(p: Point, q: Point, nmin: int, nmax: int, n: int, e: Edge, x1: int, y1: int, dx: int, dy: int)
    requires e == SetUp(p, q, CentreLine(nmin), CentreLine(nmax)) && CentreLine(n) >= e.yTop
    requires x1 == Upper(p, q).x && y1 == Odd(Upper(p, q).y)
    requires dx == Lower(p, q).x - x1 && dy == Odd(Lower(p, q).y) - y1 && dy > 0
    requires EdgeFits(x1, y1, dx, dy, e.yTop, CentreLine(n))
    ensures OffBy(LineX(e, n), x1, y1, dx, dy, CentreLine(n)) < dy * (16 + (CentreLine(n) - y1))
  {
    FirstLine(y1, nmin, n);
    SetUpErrs(e, x1, y1, dx, dy, n);
  }

  lemma SetUpErrs(e: Edge, x1: int, y1: int, dx: int, dy: int, n: int)
    requires dy > 0 && y1 < e.yTop <= CentreLine(n) && (CentreLine(n) - e.yTop) % 16 == 0
    requires EdgeFits(x1, y1, dx, dy, e.yTop, CentreLine(n)) && e.xIncr == SlopeOf(dx, dy)
    requires e.x == MovedDown(x1, y1, e.xIncr, e.yTop)
    ensures OffBy(LineX(e, n), x1, y1, dx, dy, CentreLine(n)) < dy * (16 + (CentreLine(n) - y1))
  {
    SlopeIsQuotient(dx, dy);
    UnwrappedLine(e, x1, y1, TruncDiv(dx * 0x1_0000, dy), n);
    ErrorBound(x1, y1, dx, dy, e.yTop, CentreLine(n));
  }

  lemma FirstLine(y1: int, nmin: int, n: int)
    requires y1 % 2 == 1
    ensures var yTop := if y1 > CentreLine(nmin) then SnapNextHalf(y1) else CentreLine(nmin);
            y1 < yTop && (CentreLine(n) - yTop) % 16 == 0
  {
    var first := SnapLine(y1);
    var m := if y1 > CentreLine(nmin) then first else nmin;
    assert CentreLine(n) - CentreLine(m) == 16 * (n - m);
  }

  lemma SlopeIsQuotient(dx: int, dy: int)
    requires dy > 0
    ensures SlopeOf(dx, dy) == Wrap32(TruncDiv(dx * 0x1_0000, dy))
  {
    Pow2Values();
    if dx == 0 {
      DivModUnique(0, dy, 0, 0);
    }
  }

  /** Without wrap-around the stepped position is the unwrapped one. */
  lemma UnwrappedLine(e: Edge, x1: int, y1: int, slope: int, n: int)
    requires Fits32(slope) && Fits32(x1 * 4096 + 32768) && Fits32(slope * (e.yTop - y1))
    requires Fits32(Unwrapped(x1, y1, slope, e.yTop, e.yTop)) && Fits32(Unwrapped(x1, y1, slope, e.yTop, CentreLine(n)))
    requires e.xIncr == slope && e.x == MovedDown(x1, y1, slope, e.yTop)
    ensures LineX(e, n) == Unwrapped(x1, y1, slope, e.yTop, CentreLine(n))
  {
    assert ((e.yTop - e.yTop) / 16) * slope == 0;
  }

  /** Edges no wider than 2048 pixels that start within 16384 pixels of the origin never wrap. */
  lemma NarrowEdgesFit(x1: int, y1: int, dx: int, dy: int, yTop: int, line: int)
    requires dy > 0 && y1 < yTop <= line < y1 + dy && (line - yTop) % 16 == 0
    requires -0x8000 <= dx <= 0x8000 && -0x4_0000 <= x1 <= 0x4_0000
    ensures EdgeFits(x1, y1, dx, dy, yTop, line)
  {
    var slope := TruncDiv(dx * 0x1_0000, dy);
    SlopeTimesHeight(dx, dy, slope);
    PartOfHeight(slope, dy, 1);
    PartOfHeight(slope, dy, yTop - y1);
    PartOfHeight(slope, dy, line - y1);
    NearStart(x1, y1, slope, dy, yTop, line);
    NearStart(x1, y1, slope, dy, yTop, yTop);
  }

  lemma SlopeTimesHeight(dx: int, dy: int, slope: int)
    requires dy > 0 && -0x8000 <= dx <= 0x8000 && slope == TruncDiv(dx * 0x1_0000, dy)
    ensures -TWO31 <= dy * slope <= TWO31
  {
    TruncRemainder(dx * 0x1_0000, dy);
    if dx >= 0 {
      MulMonotone(0, slope, dy);
    } else {
      MulMonotone(slope, 0, dy);
    }
  }

  lemma NearStart(x1: int, y1: int, slope: int, dy: int, yTop: int, line: int)
    requires (line - yTop) % 16 == 0 && -TWO31 < slope * (line - y1) < TWO31 && -0x4_0000 <= x1 <= 0x4_0000
    ensures Fits32(Unwrapped(x1, y1, slope, yTop, line))
  {
    var f := DistanceFromStart(x1, y1, slope, yTop, line);
  }

  lemma PartOfHeight(slope: int, dy: int, h: int)
    requires 0 < h < dy && -TWO31 <= dy * slope <= TWO31
    ensures -TWO31 < slope * h < TWO31
  {
    if slope > 0 {
      MulStrict(h, dy, slope);
      MulMonotone(0, slope, h);
    } else if slope < 0 {
      MulStrict(h, dy, -slope);
      MulMonotone(0, -slope, h);
      assert h * -slope == -(slope * h) && dy * -slope == -(dy * slope);
    }
  }
}
