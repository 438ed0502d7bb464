/** What the draw calls of swrender/array.cpp are to render, stated on the sequence of compiled
    vertices, and what the rejection of whole batches does to it. */
module Primitives {
  import opened Machine

  /** A flag word, as the set of the numbers of its one bits; bitwise and is intersection. */
  type Flags = set<nat>

  /** What compiling an array element gives: flags and clip coordinates. */
  datatype Compiled = Compiled(flags: Flags, x: int, y: int, z: int, w: int)

  datatype Triangle = Triangle(a: Compiled, b: Compiled, c: Compiled)

  /** The bits of 0x3F3F: six frustum planes and six user planes. */
  const CLIP_ALL: Flags := set bit: nat | bit < 14 && bit != 6 && bit != 7

  /** A triangle is rejected when its vertices are all outside the same clip plane. */
  predicate Rejected(a: Compiled, b: Compiled, c: Compiled) {
    a.flags * b.flags * c.flags * CLIP_ALL != {}
  }

  /** What rendering triangle a, b, c adds to the triangles rendered. */
  function Kept(a: Compiled, b: Compiled, c: Compiled): seq<Triangle> {
    if Rejected(a, b, c) then [] else [Triangle(a, b, c)]
  }

  /** How a sequence of vertices makes triangles. */
  datatype Mode = List | Strip | Fan

  /** The number of triangles in n vertices. */
  function Size(mode: Mode, n: nat): int {
    if mode == List then n / 3 else n - 2
  }

  /** Triangle i.  Every other triangle of a strip has its first two vertices exchanged, which
      keeps the winding. */
  function TriangleAt(mode: Mode, s: seq<Compiled>, i: nat): seq<Triangle>
    requires i < Size(mode, |s|)
  {
    match mode
    case List => Kept(s[3 * i], s[3 * i + 1], s[3 * i + 2])
    case Strip => if i % 2 == 0 then Kept(s[i], s[i + 1], s[i + 2]) else Kept(s[i + 1], s[i], s[i + 2])
    case Fan => Kept(s[0], s[i + 1], s[i + 2])
  }

  function Concat(parts: seq<seq<Triangle>>): seq<Triangle> {
    if |parts| == 0 then [] else Concat(parts[..|parts| - 1]) + parts[|parts| - 1]
  }

  lemma ConcatNext(parts: seq<seq<Triangle>>, i: nat)
    requires i < |parts|
    ensures Concat(parts[..i + 1]) == Concat(parts[..i]) + parts[i]
  {
    assert parts[..i + 1][..i] == parts[..i];
  }

  lemma {:induction false} ConcatJoin(parts: seq<seq<Triangle>>, i: nat, j: nat)
    requires i <= j <= |parts|
    ensures Concat(parts[..i]) + Concat(parts[i..j]) == Concat(parts[..j])
  {
    if i < j {
      ConcatJoin(parts, i, j - 1);
      ConcatNext(parts, j - 1);
      assert parts[i..j][..j - 1 - i] == parts[i..j - 1];
    } else {
      assert parts[i..j] == [];
    }
  }

  /** What drawing the triangles one by one renders, each tested by itself. */
  function Unbatched(mode: Mode, s: seq<Compiled>): (parts: seq<seq<Triangle>>)
    requires |s| >= 3
    ensures |parts| == Size(mode, |s|)
  {
    seq(Size(mode, |s|), i requires 0 <= i < Size(mode, |s|) => TriangleAt(mode, s, i))
  }

  // ---------------------------------------------------------------- whole batches

  /** The clip planes that cull and all of these vertices have in common. */
  function Cull(cull: Flags, s: seq<Compiled>): Flags {
    if |s| == 0 then cull else Cull(cull, s[..|s| - 1]) * (s[|s| - 1].flags * CLIP_ALL)
  }

  lemma {:induction false} CullShared(cull: Flags, s: seq<Compiled>)
    ensures Cull(cull, s) <= cull
    ensures forall i :: 0 <= i < |s| ==> Cull(cull, s) <= s[i].flags
  {
    if |s| > 0 {
      CullShared(cull, s[..|s| - 1]);
    }
  }

  lemma SharedRejects(cull: Flags, a: Compiled, b: Compiled, c: Compiled)
    requires cull != {} && cull <= CLIP_ALL && cull <= a.flags && cull <= b.flags && cull <= c.flags
    ensures Rejected(a, b, c)
  {
    var plane :| plane in cull;
    assert plane in a.flags * b.flags * c.flags * CLIP_ALL;
  }

  /** Vertices of a batch: of a list 72, of a strip or fan 70 after the two carried over. */
  function Batch(mode: Mode): nat {
    if mode == List then 72 else 70
  }

  /** The first vertex of batch b. */
  function Start(mode: Mode, b: nat): nat {
    if mode == List then 72 * b else 70 * b + 2
  }

  /** The first triangle that batch b completes. */
  function FirstOf(mode: Mode, b: nat): nat {
    if mode == List then 24 * b else 70 * b
  }

  function BatchSize(mode: Mode, count: nat, b: nat): int {
    Min(count - Start(mode, b), Batch(mode))
  }

  /** The planes that reject batch b.  For strips and fans they start from the two vertices
      before the batch, which for a later batch of a fan are on the rim. */
  function BatchCull(mode: Mode, s: seq<Compiled>, b: nat): Flags
    requires Start(mode, b) <= |s|
  {
    Cull(CullStart(mode, s, b), s[Start(mode, b)..Start(mode, b) + BatchSize(mode, |s|, b)])
  }

  function CullStart(mode: Mode, s: seq<Compiled>, b: nat): Flags
    requires Start(mode, b) <= |s|
  {
    if mode == List then CLIP_ALL else s[70 * b].flags * s[70 * b + 1].flags * CLIP_ALL
  }

  /** The batch that completes triangle i. */
  function Number(mode: Mode, i: nat): nat {
    if mode == List then i / 24 else i / 70
  }

  lemma NumberIs(mode: Mode, b: nat, i: nat)
    requires FirstOf(mode, b) <= i < FirstOf(mode, b + 1)
    ensures Number(mode, i) == b
  {
    if mode == List {
      DivModUnique(i, 24, b, i - b * 24);
    } else {
      DivModUnique(i, 70, b, i - b * 70);
    }
  }

  /** The batch that completes triangle i is rejected as a whole. */
  predicate Lost(mode: Mode, s: seq<Compiled>, i: nat)
    requires i < Size(mode, |s|)
  {
    BatchCull(mode, s, Number(mode, i)) != {}
  }

  /** What the batched loops render of each triangle. */
  function Batched(mode: Mode, s: seq<Compiled>): (parts: seq<seq<Triangle>>)
    requires |s| >= 3
    ensures |parts| == Size(mode, |s|)
  {
    seq(Size(mode, |s|), i requires 0 <= i < Size(mode, |s|) =>
      if Lost(mode, s, i) then [] else TriangleAt(mode, s, i))
  }

  /** Leaving out some of the parts changes the whole exactly when one of them is not empty. */
  lemma {:induction false} ConcatExact(some: seq<seq<Triangle>>, all: seq<seq<Triangle>>)
    requires |some| == |all| && forall i :: 0 <= i < |all| ==> some[i] == [] || some[i] == all[i]
    ensures |Concat(some)| <= |Concat(all)|
    ensures Concat(some) == Concat(all) <==> some == all
  {
    if |all| > 0 {
      var n := |all| - 1;
      ConcatExact(some[..n], all[..n]);
      Dropped(Concat(some[..n]), Concat(all[..n]), some[n], all[n]);
      assert some == some[..n] + [some[n]] && all == all[..n] + [all[n]];
    }
  }

  lemma Dropped(a: seq<Triangle>, b: seq<Triangle>, x: seq<Triangle>, y: seq<Triangle>)
    requires |a| <= |b| && (x == [] || x == y)
    ensures |a + x| <= |b + y| && (a + x == b + y <==> a == b && x == y)
  {
    if x == y {
      assert (a + x)[..|a|] == a && (b + y)[..|b|] == b;
    }
  }

  lemma BatchShares(mode: Mode, s: seq<Compiled>, b: nat)
    requires Start(mode, b) <= |s|
    ensures BatchCull(mode, s, b) <= CLIP_ALL
    ensures forall i :: Start(mode, b) <= i < Start(mode, b) + BatchSize(mode, |s|, b) ==> BatchCull(mode, s, b) <= s[i].flags
    ensures mode != List ==> BatchCull(mode, s, b) <= s[70 * b].flags * s[70 * b + 1].flags
  {
    var done, end := Start(mode, b), Start(mode, b) + BatchSize(mode, |s|, b);
    CullShared(CullStart(mode, s, b), s[done..end]);
    forall i | done <= i < end ensures BatchCull(mode, s, b) <= s[i].flags {
      assert s[i] == s[done..end][i - done];
    }
  }

  /** A rejected batch of a list or a strip, or the first of a fan, has nothing to render. */
  lemma NothingLost(mode: Mode, s: seq<Compiled>, i: nat)
    requires i < Size(mode, |s|) && Lost(mode, s, i) && (mode == Fan ==> i < 70)
    ensures TriangleAt(mode, s, i) == []
  {
    var cull := BatchCull(mode, s, Number(mode, i));
    BatchShares(mode, s, Number(mode, i));
    match mode
    case List => SharedRejects(cull, s[3 * i], s[3 * i + 1], s[3 * i + 2]);
    case Strip =>
      SharedRejects(cull, s[i], s[i + 1], s[i + 2]);
      SharedRejects(cull, s[i + 1], s[i], s[i + 2]);
    case Fan => SharedRejects(cull, s[0], s[i + 1], s[i + 2]);
  }

  /** Strips and lists of any length: the batched loops render the triangles of the unbatched
      ones, in the same order and winding.  So do fans of up to 72 vertices. */
  lemma BatchedIsUnbatched(mode: Mode, s: seq<Compiled>)
    requires |s| >= 3 && (mode == Fan ==> |s| <= 72)
    ensures Concat(Batched(mode, s)) == Concat(Unbatched(mode, s))
  {
    forall i | 0 <= i < Size(mode, |s|) ensures Batched(mode, s)[i] == Unbatched(mode, s)[i] {
      if Lost(mode, s, i) {
        NothingLost(mode, s, i);
      }
    }
    assert Batched(mode, s) == Unbatched(mode, s);
  }

  /** The rim vertices of the batch that completes triangle i, from two before it, all lie
      outside one clip plane. */
  ghost predicate RimOutside(s: seq<Compiled>, i: nat) {
    exists plane :: plane in CLIP_ALL && forall k :: i / 70 * 70 <= k < Min(i / 70 * 70 + 72, |s|) ==> plane in s[k].flags
  }

  /** Triangle i of a fan, the hub included, lies outside one clip plane. */
  ghost predicate TriangleOutside(s: seq<Compiled>, i: nat)
    requires i + 2 < |s|
  {
    exists plane :: plane in CLIP_ALL && plane in s[0].flags && plane in s[i + 1].flags && plane in s[i + 2].flags
  }

  /** A longer fan is drawn in full exactly when, of every later batch whose rim lies outside a
      clip plane, each triangle does: the later batches do not look at the hub. */
  lemma FanExact(s: seq<Compiled>)
    requires |s| >= 3
    ensures Concat(Batched(Fan, s)) == Concat(Unbatched(Fan, s))
       <==> forall i :: 70 <= i < |s| - 2 && RimOutside(s, i) ==> TriangleOutside(s, i)
  {
    ConcatExact(Batched(Fan, s), Unbatched(Fan, s));
    forall i | 0 <= i < |s| - 2
      ensures Batched(Fan, s)[i] == Unbatched(Fan, s)[i]
         <==> (i >= 70 && RimOutside(s, i) ==> TriangleOutside(s, i))
    {
      LostIsOutside(s, i);
      FanRejects(s, i);
      if Lost(Fan, s, i) && i < 70 {
        NothingLost(Fan, s, i);
      }
    }
  }

  lemma FanRejects(s: seq<Compiled>, i: nat)
    requires i + 2 < |s|
    ensures TriangleAt(Fan, s, i) == [] <==> TriangleOutside(s, i)
  {
    var common := s[0].flags * s[i + 1].flags * s[i + 2].flags * CLIP_ALL;
    if plane :| plane in common {
      assert plane in s[0].flags && plane in s[i + 1].flags && plane in s[i + 2].flags;
    }
    if plane :| plane in CLIP_ALL && plane in s[0].flags && plane in s[i + 1].flags && plane in s[i + 2].flags {
      assert plane in common;
    }
  }

  lemma LostIsOutside(s: seq<Compiled>, i: nat)
    requires i + 2 < |s|
    ensures Lost(Fan, s, i) <==> RimOutside(s, i)
  {
    var b := i / 70;
    if plane :| plane in BatchCull(Fan, s, b) {
      RimPlane(s, b, plane);
    }
    if plane :| plane in CLIP_ALL && forall k :: 70 * b <= k < Min(70 * b + 72, |s|) ==> plane in s[k].flags {
      RimPlane(s, b, plane);
    }
  }

  lemma RimPlane(s: seq<Compiled>, b: nat, plane: nat)
    requires 70 * b + 2 <= |s|
    ensures plane in BatchCull(Fan, s, b)
       <==> plane in CLIP_ALL && forall k :: 70 * b <= k < Min(70 * b + 72, |s|) ==> plane in s[k].flags
  {
    var end := Min(70 * b + 72, |s|);
    CullMember(CullStart(Fan, s, b), s[70 * b + 2..end], plane);
    assert forall k :: 70 * b + 2 <= k < end ==> s[k] == s[70 * b + 2..end][k - (70 * b + 2)];
  }

  /** The planes that survive are the common ones. */
  lemma {:induction false} CullMember(cull: Flags, s: seq<Compiled>, plane: nat)
    requires cull <= CLIP_ALL
    ensures plane in Cull(cull, s) <==> plane in cull && forall k :: 0 <= k < |s| ==> plane in s[k].flags
  {
    if |s| > 0 {
      CullMember(cull, s[..|s| - 1], plane);
    }
  }

  /** Such a fan: the rim lies outside a plane that the hub is inside of. */
  lemma LongFanLosesTriangle()
    ensures var inside, outside := Compiled({}, 0, 0, 0, 0), Compiled({0}, 0, 0, 0, 0);
            var s := [inside, inside] + seq(71, _ => outside);
            |s| == 73 && Lost(Fan, s, 70) && TriangleAt(Fan, s, 70) == [Triangle(inside, outside, outside)]
  {
    var inside, outside := Compiled({}, 0, 0, 0, 0), Compiled({0}, 0, 0, 0, 0);
    var s := [inside, inside] + seq(71, _ => outside);
    assert s[72..73] == [outside];
    assert s[70].flags * s[71].flags * CLIP_ALL == {0};
    assert Cull({0}, [outside]) == Cull({0}, []) * ({0} * CLIP_ALL);
    assert 0 in BatchCull(Fan, s, 1);
  }

  /** The triangles completed by n vertices of a batch. */
  function Count(mode: Mode, n: nat): nat {
    if mode == List then n / 3 else n
  }

  /** A batch either is full, or ends the draw call. */
  lemma AfterBatch(mode: Mode, count: nat, b: nat)
    requires count >= 3 && Start(mode, b) < count
    ensures var n := BatchSize(mode, count, b);
            && FirstOf(mode, b) + Count(mode, n) <= FirstOf(mode, b + 1)
            && FirstOf(mode, b) + Count(mode, n) <= Size(mode, count)
            && (n == Batch(mode) ==> Start(mode, b) + n == Start(mode, b + 1) && FirstOf(mode, b) + Count(mode, n) == FirstOf(mode, b + 1))
            && (n < Batch(mode) ==> Start(mode, b) + n == count && FirstOf(mode, b) + Count(mode, n) == Size(mode, count))
  {
  }

  /** The triangles of a batch are rejected or tested one by one. */
  lemma BatchPart(mode: Mode, s: seq<Compiled>, b: nat, i: nat)
    requires |s| >= 3 && Start(mode, b) <= |s| && FirstOf(mode, b) <= i < FirstOf(mode, b + 1) && i < Size(mode, |s|)
    ensures Batched(mode, s)[i] == if BatchCull(mode, s, b) != {} then [] else TriangleAt(mode, s, i)
  {
    NumberIs(mode, b, i);
  }

  predicate AllEmpty(parts: seq<seq<Triangle>>) {
    forall k :: 0 <= k < |parts| ==> parts[k] == []
  }

  /** Parts that are empty add nothing. */
  lemma {:induction false} ConcatEmpty(parts: seq<seq<Triangle>>)
    requires AllEmpty(parts)
    ensures Concat(parts) == []
  {
    if |parts| > 0 {
      ConcatEmpty(parts[..|parts| - 1]);
    }
  }
}
