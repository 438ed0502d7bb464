/** Which triangles the draw calls of swrender/array.cpp render, with which vertex in which place
    and in which order, by positions and flag bits. */
module DrawnTriangles {
  import opened Machine
  import opened Primitives
  import opened CacheModel
  import opened VertexCache

  /** A frustum plane, bits 0 to 5, or a user plane, bits 8 to 13. */
  predicate ClipPlane(plane: nat) {
    plane < 6 || 8 <= plane < 14
  }

  /** One plane has all three outside. */
  ghost predicate AllOutside(a: Compiled, b: Compiled, c: Compiled) {
    exists plane: nat :: ClipPlane(plane) && plane in a.flags && plane in b.flags && plane in c.flags
  }

  lemma KeptExact(a: Compiled, b: Compiled, c: Compiled)
    ensures Kept(a, b, c) == if AllOutside(a, b, c) then [] else [Triangle(a, b, c)]
  {
    var common := a.flags * b.flags * c.flags * CLIP_ALL;
    if plane :| plane in common {
      assert ClipPlane(plane) && plane in a.flags && plane in b.flags && plane in c.flags;
    }
    if plane: nat :| ClipPlane(plane) && plane in a.flags && plane in b.flags && plane in c.flags {
      assert plane in common;
    }
  }

  /** The positions of the vertices of triangle i, in the order they are rendered. */
  function Corners(mode: Mode, i: nat): (nat, nat, nat) {
    match mode
    case List => (3 * i, 3 * i + 1, 3 * i + 2)
    case Strip => if i % 2 == 0 then (i, i + 1, i + 2) else (i + 1, i, i + 2)
    case Fan => (0, i + 1, i + 2)
  }

  lemma CornersIn(mode: Mode, n: nat, i: nat)
    requires i < Size(mode, n)
    ensures Corners(mode, i).0 < n && Corners(mode, i).1 < n && Corners(mode, i).2 < n
  {
  }

  function Cornered(mode: Mode, s: seq<Compiled>, i: nat): Triangle
    requires i < Size(mode, |s|)
  {
    CornersIn(mode, |s|, i);
    Triangle(s[Corners(mode, i).0], s[Corners(mode, i).1], s[Corners(mode, i).2])
  }

  /** Of a fan, the vertices of the batch that completes triangle i, from two before it, are all
      outside one plane: then the batch is left out whole. */
  ghost predicate RimAllOutside(s: seq<Compiled>, i: nat) {
    exists plane: nat :: ClipPlane(plane) && forall k :: i / 70 * 70 <= k < Min(i / 70 * 70 + 72, |s|) ==> plane in s[k].flags
  }

  /** Triangle i is rendered. */
  ghost predicate Shown(mode: Mode, s: seq<Compiled>, i: nat)
    requires i < Size(mode, |s|)
  {
    var t := Cornered(mode, s, i);
    !AllOutside(t.a, t.b, t.c) && !(mode == Fan && RimAllOutside(s, i))
  }

  /** How many of the first n triangles are. */
  ghost function CountShown(mode: Mode, s: seq<Compiled>, n: nat): nat
    requires n <= Max(Size(mode, |s|), 0)
  {
    if n == 0 then 0 else CountShown(mode, s, n - 1) + (if Shown(mode, s, n - 1) then 1 else 0)
  }

  /** `out` is exactly the triangles that are shown, in their order. */
  ghost predicate Renders(out: seq<Triangle>, mode: Mode, s: seq<Compiled>) {
    && |out| == CountShown(mode, s, Max(Size(mode, |s|), 0))
    && forall i: nat :: i < Size(mode, |s|) && Shown(mode, s, i) ==> RendersAt(out, mode, s, i)
  }

  ghost predicate RendersAt(out: seq<Triangle>, mode: Mode, s: seq<Compiled>, i: nat)
    requires i < Size(mode, |s|)
  {
    CountShown(mode, s, i) < |out| && out[CountShown(mode, s, i)] == Cornered(mode, s, i)
  }

  /** What the batched loops make of one triangle. */
  lemma PartExact(mode: Mode, s: seq<Compiled>, i: nat)
    requires |s| >= 3 && i < Size(mode, |s|)
    ensures Batched(mode, s)[i] == if Shown(mode, s, i) then [Cornered(mode, s, i)] else []
  {
    var t := Cornered(mode, s, i);
    KeptExact(t.a, t.b, t.c);
    assert TriangleAt(mode, s, i) == Kept(t.a, t.b, t.c);
    if mode == Fan {
      LostIsOutside(s, i);
      RimExact(s, i);
    } else if Lost(mode, s, i) {
      NothingLost(mode, s, i);
    }
  }

  lemma RimExact(s: seq<Compiled>, i: nat)
    ensures RimOutside(s, i) <==> RimAllOutside(s, i)
  {
    if plane: nat :| plane in CLIP_ALL && forall k :: i / 70 * 70 <= k < Min(i / 70 * 70 + 72, |s|) ==> plane in s[k].flags {
      assert ClipPlane(plane);
    }
    if plane: nat :| ClipPlane(plane) && forall k :: i / 70 * 70 <= k < Min(i / 70 * 70 + 72, |s|) ==> plane in s[k].flags {
      assert plane in CLIP_ALL;
    }
  }

  /** The draw calls render the triangles that are shown, and nothing else, in order. */
  lemma {:induction false} PartsRender(mode: Mode, s: seq<Compiled>, n: nat, i: nat)
    requires |s| >= 3 && n <= Size(mode, |s|)
    ensures |Concat(Batched(mode, s)[..n])| == CountShown(mode, s, n)
    ensures i < n && Shown(mode, s, i) ==> RendersAt(Concat(Batched(mode, s)[..n]), mode, s, i)
  {
    if n > 0 {
      PartsRender(mode, s, n - 1, i);
      PartExact(mode, s, n - 1);
      ConcatNext(Batched(mode, s), n - 1);
      NextRenders(mode, s, n - 1, i, Concat(Batched(mode, s)[..n - 1]), Concat(Batched(mode, s)[..n]));
    }
  }

  lemma NextRenders(mode: Mode, s: seq<Compiled>, n: nat, i: nat, before: seq<Triangle>, out: seq<Triangle>)
    requires n < Size(mode, |s|) && |before| == CountShown(mode, s, n)
    requires i < n && Shown(mode, s, i) ==> RendersAt(before, mode, s, i)
    requires out == before + if Shown(mode, s, n) then [Cornered(mode, s, n)] else []
    ensures |out| == CountShown(mode, s, n + 1)
    ensures i <= n && Shown(mode, s, i) ==> RendersAt(out, mode, s, i)
  {
  }

  lemma BatchedRenders(mode: Mode, s: seq<Compiled>)
    requires |s| >= 3
    ensures Renders(Concat(Batched(mode, s)), mode, s)
  {
    var out, n := Concat(Batched(mode, s)), Size(mode, |s|);
    assert Batched(mode, s)[..n] == Batched(mode, s);
    PartsRender(mode, s, n, 0);
    forall i: nat | i < n && Shown(mode, s, i) ensures RendersAt(out, mode, s, i) {
      PartsRender(mode, s, n, i);
    }
  }

  // ---------------------------------------------------------------- the calls

  /** glDrawElements from a quiet cache renders the triangles of the elements that the indices
      name, now. */
  lemma ElementsRender(c: Cache, arrays: Arrays, indices: seq<int>, s: seq<Compiled>)
    requires Quiet(c) && Indices(indices)
    requires |s| == |indices| && forall k :: 0 <= k < |s| ==> s[k] == arrays(indices[k])
    ensures Renders(DrawElements(c, arrays, indices).1, List, s)
  {
    DrawStaysQuiet(c, arrays, indices);
    assert Indexed(arrays, indices) == s;
    if |s| >= 3 {
      BatchedIsUnbatched(List, s);
      BatchedRenders(List, s);
    }
  }

  /** In particular three indices: nothing when the elements are all outside one plane, otherwise
      the triangle of the elements in the order of the indices. */
  lemma ThreeIndices(c: Cache, arrays: Arrays, i: int, j: int, k: int)
    requires Quiet(c) && Indices([i, j, k])
    ensures DrawElements(c, arrays, [i, j, k]).1
         == if AllOutside(arrays(i), arrays(j), arrays(k)) then [] else [Triangle(arrays(i), arrays(j), arrays(k))]
  {
    var s := [arrays(i), arrays(j), arrays(k)];
    ElementsRender(c, arrays, [i, j, k], s);
    var out := DrawElements(c, arrays, [i, j, k]).1;
    assert Cornered(List, s, 0) == Triangle(arrays(i), arrays(j), arrays(k));
    assert CountShown(List, s, 1) == if Shown(List, s, 0) then 1 else 0;
    if Shown(List, s, 0) {
      assert RendersAt(out, List, s, 0);
    }
  }

  /** glDrawArrays within the index range renders the triangles of the elements from position
      first on. */
  lemma PositionsRender(mode: Mode, arrays: Arrays, first: int, count: nat, s: seq<Compiled>)
    requires 0 <= first && first + count <= INDEX_SEQ && count >= 3
    requires |s| == count && forall k :: 0 <= k < count ==> s[k] == arrays(first + k)
    ensures Renders(Concat(Batched(mode, Vertices(mode, arrays, first, count))), mode, s)
  {
    forall k: nat | k < count ensures Vertices(mode, arrays, first, count)[k] == s[k] {
      VerticesInReach(mode, arrays, first, count, k);
    }
    assert Vertices(mode, arrays, first, count) == s;
    BatchedRenders(mode, s);
  }
}
