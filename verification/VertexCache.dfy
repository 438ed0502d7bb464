/** swrender/array.cpp: the direct-mapped cache of compiled vertices behind glDrawElements, and
    the batched draw calls that share its entries. */
module VertexCache {
  import opened Machine
  import opened Primitives
  import opened CacheModel
  import opened CachePositions

  /** Neighbouring elements, compiled. */
  function Neighbours(arrays: Arrays, base: int, n: nat): seq<Compiled> {
    seq(n, i requires 0 <= i < n => arrays(base + i))
  }

  /** The vertices of a draw call without indices.  The first of every batch has its position
      reduced to the index bits. */
  function Vertices(mode: Mode, arrays: Arrays, first: int, count: nat): (s: seq<Compiled>)
    ensures |s| == count
  {
    seq(count, k requires 0 <= k < count =>
      arrays((first + VertexStart(mode, k)) % INDEX_SEQ + (k - VertexStart(mode, k))))
  }

  /** The first vertex of the batch that vertex k is compiled in. */
  function VertexStart(mode: Mode, k: nat): nat {
    if mode == List then k / 72 * 72 else if k < 2 then 0 else (k - 2) / 70 * 70 + 2
  }

  lemma SameStart(mode: Mode, b: nat, k: nat)
    requires Start(mode, b) <= k < Start(mode, b + 1)
    ensures VertexStart(mode, k) == Start(mode, b)
  {
    if mode == List {
      DivModUnique(k, 72, b, k - 72 * b);
    } else {
      DivModUnique(k - 2, 70, b, k - 2 - 70 * b);
    }
  }

  lemma FirstTwo(mode: Mode, arrays: Arrays, first: int, count: nat)
    requires mode != List && count >= 2
    ensures var s := Vertices(mode, arrays, first, count);
            var two := Neighbours(arrays, first % INDEX_SEQ, 2);
            two == s[0..2] && Cull(CLIP_ALL, s[0..2]) == CullStart(mode, s, 0)
  {
    var two := Neighbours(arrays, first % INDEX_SEQ, 2);
    assert two[..1] == [two[0]] && two[..1][..0] == [];
    assert Cull(CLIP_ALL, two[..1]) == Cull(CLIP_ALL, []) * (two[0].flags * CLIP_ALL);
    assert Cull(CLIP_ALL, two) == CLIP_ALL * (two[0].flags * CLIP_ALL) * (two[1].flags * CLIP_ALL);
  }

  lemma BatchVertices(mode: Mode, arrays: Arrays, first: int, count: nat, b: nat, s: seq<Compiled>, done: nat, from: int, n: nat)
    requires Start(mode, b) < count && s == Vertices(mode, arrays, first, count)
    requires done == Start(mode, b) && from == first + done && n == BatchSize(mode, count, b)
    ensures s[done..done + n] == Neighbours(arrays, from % INDEX_SEQ, n)
  {
    forall k | done <= k < done + n ensures s[k] == Neighbours(arrays, from % INDEX_SEQ, n)[k - done] {
      SameStart(mode, b, k);
    }
  }

  lemma BatchCullIs(mode: Mode, s: seq<Compiled>, b: nat, num: nat)
    requires Start(mode, b) < |s| && num == BatchSize(mode, |s|, b)
    ensures Start(mode, b) + num <= |s|
    ensures BatchCull(mode, s, b) == Cull(CullStart(mode, s, b), s[Start(mode, b)..Start(mode, b) + num])
  {
  }

  lemma CullNext(cull: Flags, arrays: Arrays, base: int, i: nat)
    ensures Cull(cull, Neighbours(arrays, base, i + 1))
         == Cull(cull, Neighbours(arrays, base, i)) * (arrays(base + i).flags * CLIP_ALL)
  {
    assert Neighbours(arrays, base, i + 1)[..i] == Neighbours(arrays, base, i);
  }

  class VertexCache {
    /** Entries 0 to 7 are the vertex buffer, the others the cache. */
    const v: array<Vertex>
    var sequence: int
    /** The clip planes that all vertices compiled since it was set have in common. */
    var cull: Flags

    predicate Valid()
      reads this
    {
      v.Length == TOTAL && 0 <= sequence < TWO31 && sequence % INDEX_SEQ == 0
    }

    ghost function Value(): (c: Cache)
      requires Valid()
      reads this, v
      ensures CacheModel.Valid(c)
    {
      Cache(v[..], sequence)
    }

    constructor (blank: Compiled)
      ensures Valid() && Quiet(Value()) && fresh(v) && sequence == 0
    {
      v := new Vertex[TOTAL](_ => Vertex(blank, 0, false));
      sequence, cull := 0, {};
    }

    method Clear()
      requires Valid()
      modifies this`sequence, v
      ensures Valid() && Value() == Cleared(old(Value()))
    {
      sequence := sequence + INDEX_SEQ;
      if sequence >= 0x8000_0000 {
        sequence := INDEX_SEQ;
        for k := 0 to TOTAL
          invariant Valid() && sequence == INDEX_SEQ
          invariant forall j :: 0 <= j < k ==> v[j] == old(v[j]).(index := 0)
          invariant forall j :: k <= j < TOTAL ==> v[j] == old(v[j])
        {
          v[k] := v[k].(index := 0);
        }
      }
    }

    method Store(k: int, c: Compiled, index: int)
      requires Valid() && 0 <= k < TOTAL
      modifies v, this`cull
      ensures Valid() && Value() == old(Value()).(v := old(v[..])[k := Vertex(c, index, old(v[k].locked))])
      ensures cull == old(cull) * (c.flags * CLIP_ALL)
    {
      v[k] := Vertex(c, index, v[k].locked);
      cull := cull * (c.flags * CLIP_ALL);
    }

    method CompileElement(arrays: Arrays, k: int, index: int)
      requires Valid() && 0 <= k < TOTAL
      modifies v, this`cull
      ensures Valid()
      ensures Value() == old(Value()).(v := old(v[..])[k := Vertex(arrays(index % INDEX_SEQ), index, old(v[k].locked))])
    {
      Store(k, arrays(index % INDEX_SEQ), index);
    }

    /** Compiles num neighbouring elements.  Only the first is reduced to the index bits. */
    method CompileElements(arrays: Arrays, at: int, first: int, num: int)
      requires Valid() && 0 <= at && 0 < num && at + num <= TOTAL
      modifies v, this`cull
      ensures Valid() && Loading(old(Value()), Value(), at, arrays, first, num)
      ensures cull == Cull(old(cull), Neighbours(arrays, first % INDEX_SEQ, num))
    {
      var base, i := first % INDEX_SEQ, 0;
      assert Neighbours(arrays, base, 0) == [];
      while i < num
        invariant 0 <= i <= num && Valid() && sequence == old(sequence)
        invariant Loading(old(Value()), Value(), at, arrays, first, i)
        invariant cull == Cull(old(cull), Neighbours(arrays, base, i))
      {
        ghost var c := Value();
        Store(at + i, arrays(base + i), Tag(first + i));
        NextLoading(old(Value()), c, Value(), at, arrays, first, i);
        CullNext(old(cull), arrays, base, i);
        i := i + 1;
      }
    }

    /** Compiles into the cache entry, or, while that is locked, into a free buffer entry. */
    method CacheVertex(arrays: Arrays, slot: int, tag: int) returns (k: int)
      requires Valid() && BUFFER_SIZE <= slot < TOTAL
      modifies v, this`cull
      ensures Valid() && k == if old(v[slot].locked) then Spare(old(Value())) else slot
      ensures Value() == old(Value()).(v := old(v[..])[k := Vertex(arrays(tag % INDEX_SEQ), tag, true)])
    {
      k := slot;
      if v[k].locked {
        k := 2;
        k := k + (if v[2].locked then 1 else 0) + 2 * (if v[3].locked then 1 else 0);
      }
      CompileElement(arrays, k, tag);
      v[k] := v[k].(locked := true);
    }

    /** The entry that holds the vertex of this index, locked. */
    method FetchVertex(arrays: Arrays, index: int) returns (k: int)
      requires Valid()
      modifies v, this`cull
      ensures Valid() && (Value(), k) == Fetch(old(Value()), arrays, index)
    {
      var tag := sequence + index;
      var slot := BUFFER_SIZE + tag % CACHE_SIZE;
      if v[slot].index == tag {
        v[slot] := v[slot].(locked := true);
        return slot;
      }
      k := CacheVertex(arrays, slot, tag);
    }

    /** The test of the single triangle, and its rendering. */
    method RenderTriangle(a: int, b: int, c: int) returns (out: seq<Triangle>)
      requires Valid() && 0 <= a < TOTAL && 0 <= b < TOTAL && 0 <= c < TOTAL
      ensures out == Kept(v[a].c, v[b].c, v[c].c)
    {
      var cc := v[a].c.flags * v[b].c.flags * v[c].c.flags;
      if cc * CLIP_ALL == {} {
        return [Triangle(v[a].c, v[b].c, v[c].c)];
      }
      return [];
    }

    method Unlock(k: int)
      requires Valid() && 0 <= k < TOTAL
      modifies v
      ensures Valid() && Value() == Unlocked(old(Value()), k)
    {
      v[k] := v[k].(locked := false);
    }

    /** One triangle of an indexed list: fetched, rendered and unlocked again. */
    method IndexedTriangle(arrays: Arrays, i0: int, i1: int, i2: int) returns (out: seq<Triangle>)
      requires Valid()
      modifies v, this`cull
      ensures Valid() && (Value(), out) == DrawOne(old(Value()), arrays, i0, i1, i2)
    {
      var k0 := FetchVertex(arrays, i0);
      var k1 := FetchVertex(arrays, i1);
      var k2 := FetchVertex(arrays, i2);
      out := RenderTriangle(k0, k1, k2);
      Unlock(k0);
      Unlock(k1);
      Unlock(k2);
    }

    method DrawIndexedTriangles(arrays: Arrays, indices: seq<int>) returns (out: seq<Triangle>)
      requires Valid()
      modifies v, this`cull
      ensures Valid() && (Value(), out) == DrawSome(old(Value()), arrays, indices, |indices| / 3)
    {
      out := [];
      if |indices| < 3 {
        return;
      }
      ghost var c := Value();
      var count, n := |indices| - 3, 0;
      while count >= 0
        invariant 0 <= n && count == |indices| - 3 - 3 * n && count >= -3
        invariant Valid() && (Value(), out) == DrawSome(c, arrays, indices, n)
      {
        out := NextTriangle(arrays, indices, n, out, c);
        n := n + 1;
        count := count - 3;
      }
      DivModUnique(|indices|, 3, n, |indices| - 3 * n);
    }

    /** One turn of the loop. */
    method NextTriangle(arrays: Arrays, indices: seq<int>, n: nat, before: seq<Triangle>, ghost c: Cache) returns (out: seq<Triangle>)
      requires Valid() && CacheModel.Valid(c) && 3 * n + 3 <= |indices|
      requires (Value(), before) == DrawSome(c, arrays, indices, n)
      modifies v, this`cull
      ensures Valid() && (Value(), out) == DrawSome(c, arrays, indices, n + 1)
    {
      ghost var r := DrawSome(c, arrays, indices, n);
      var triangle := IndexedTriangle(arrays, indices[3 * n], indices[3 * n + 1], indices[3 * n + 2]);
      NextSome(c, arrays, indices, n, r, Value(), triangle);
      out := before + triangle;
    }

    /** glDrawElements for triangles. */
    method DrawElements(arrays: Arrays, indices: seq<int>) returns (out: seq<Triangle>)
      requires Valid()
      modifies this, v
      ensures Valid() && (Value(), out) == CacheModel.DrawElements(old(Value()), arrays, indices)
    {
      if |indices| == 0 {
        return [];
      }
      Clear();
      out := DrawIndexedTriangles(arrays, indices);
    }

    /** The n entries from `at` hold the vertices from `done`. */
    ghost predicate Loaded(at: nat, s: seq<Compiled>, done: nat, n: nat)
      requires Valid() && at + n <= TOTAL && done + n <= |s|
      reads this, v
    {
      forall j :: at <= j < at + n ==> v[j].c == s[done + (j - at)]
    }

    method DrawTriangles(arrays: Arrays, first: int, count: nat) returns (out: seq<Triangle>)
      requires Valid()
      modifies v, this`cull
      ensures Valid() && After(old(Value()), Value(), List, arrays, first, count)
      ensures out == if count < 3 then [] else Concat(Batched(List, Vertices(List, arrays, first, count)))
    {
      if count < 3 {
        return [];
      }
      out := [];
      var done := 0;
      ghost var all, b: nat, k: nat := Batched(List, Vertices(List, arrays, first, count)), 0, 0;
      while count - done >= 3
        invariant 0 <= done <= count && Progress(List, count, done, b, k) && Going(List, count, done, b)
        invariant Valid() && out == Concat(all[..k])
        invariant Written(old(Value()), Value(), List, arrays, first, count, b)
      {
        ghost var c := Value();
        out, done, k := ListBatch(arrays, first, count, done, b, out);
        NextWritten(old(Value()), c, Value(), List, arrays, first, count, b);
        b := b + 1;
      }
      BatchCount(List, count, b);
      assert all[..k] == all;
    }

    /** Compiles n vertices from s[done] on. */
    method Load(at: nat, arrays: Arrays, first: int, n: nat, ghost s: seq<Compiled>, ghost done: nat)
      requires Valid() && 0 < n && at + n <= TOTAL && done + n <= |s|
      requires s[done..done + n] == Neighbours(arrays, first % INDEX_SEQ, n)
      modifies v, this`cull
      ensures Valid() && Loaded(at, s, done, n)
      ensures forall j :: 0 <= j < at ==> v[j] == old(v[j])
      ensures cull == Cull(old(cull), s[done..done + n])
      ensures Loading(old(Value()), Value(), at, arrays, first, n)
    {
      CompileElements(arrays, at, first, n);
      assert forall k :: done <= k < done + n ==> s[k] == s[done..done + n][k - done];
      assert forall j :: 0 <= j < TOTAL ==> v[j] == Value().v[j];
    }

    /** Compiles the next batch, and finds the clip planes that reject it. */
    method CompileBatch(mode: Mode, at: nat, arrays: Arrays, first: int, count: nat, done: nat, ghost b: nat)
      returns (num: nat)
      requires Valid() && done == Start(mode, b) < count && at == At(mode)
      requires cull == CullStart(mode, Vertices(mode, arrays, first, count), b)
      modifies v, this`cull
      ensures Valid() && num == BatchSize(mode, count, b)
      ensures cull == BatchCull(mode, Vertices(mode, arrays, first, count), b)
      ensures forall j :: 0 <= j < at ==> v[j] == old(v[j])
      ensures Loaded(at, Vertices(mode, arrays, first, count), done, num)
      ensures BatchStep(old(Value()), Value(), mode, arrays, first, count, b)
    {
      num := Min(count - done, Batch(mode));
      ghost var s := Vertices(mode, arrays, first, count);
      var from := first + done;
      BatchVertices(mode, arrays, first, count, b, s, done, from, num);
      BatchCullIs(mode, s, b, num);
      Load(at, arrays, from, num, s, done);
      LoadingIsStep(old(Value()), Value(), mode, arrays, first, count, b, at, from, num);
    }

    /** One turn of the loop for lists. */
    method ListBatch(arrays: Arrays, first: int, count: nat, done0: nat, ghost b: nat, before: seq<Triangle>)
      returns (out: seq<Triangle>, done: nat, ghost k: nat)
      requires Valid() && done0 + 3 <= count && done0 == Start(List, b)
      requires before == Concat(Batched(List, Vertices(List, arrays, first, count))[..FirstOf(List, b)])
      modifies v, this`cull
      ensures Valid()
      ensures done0 < done <= count && Progress(List, count, done, b + 1, k) && Going(List, count, done, b + 1)
      ensures out == Concat(Batched(List, Vertices(List, arrays, first, count))[..k])
      ensures BatchStep(old(Value()), Value(), List, arrays, first, count, b)
    {
      cull := CLIP_ALL;
      ghost var s := Vertices(List, arrays, first, count);
      var num := CompileBatch(List, 0, arrays, first, count, done0, b);
      done := done0 + num;
      ghost var parts;
      k, parts := NextBatch(List, s, b, num, cull == {});
      out := before;
      if cull == {} {
        var batch := RenderList(num, s, b, parts);
        out := out + batch;
      }
    }

    method RenderList(num: nat, ghost s: seq<Compiled>, ghost b: nat, ghost parts: seq<seq<Triangle>>)
      returns (out: seq<Triangle>)
      requires Valid() && 3 <= num <= 72 && |parts| == num / 3 && 72 * b + num <= |s|
      requires Loaded(0, s, 72 * b, num) && 24 * b + num / 3 <= Size(List, |s|)
      requires forall t :: 0 <= t < |parts| ==> parts[t] == LocalTriangle(List, s, b, t)
      ensures out == Concat(parts)
    {
      out := [];
      var k, left := 0, num - 3;
      ghost var t := 0;
      while left >= 0
        invariant 0 <= t <= |parts| && k == 3 * t && left == num - 3 - k
        invariant out == Concat(parts[..t])
      {
        ConcatNext(parts, t);
        var triangle := RenderTriangle(k, k + 1, k + 2);
        out := out + triangle;
        k := k + 3;
        left := left - 3;
        t := t + 1;
      }
      assert parts[..t] == parts;
    }

    /** winding 1 draws a strip and 2 a fan. */
    method DrawFanOrStrip(arrays: Arrays, first: int, count: nat, winding0: int) returns (out: seq<Triangle>)
      requires Valid() && 1 <= winding0 <= 2
      modifies v, this`cull
      ensures Valid() && After(old(Value()), Value(), ModeOf(winding0), arrays, first, count)
      ensures var mode := ModeOf(winding0);
              out == if count < 3 then [] else Concat(Batched(mode, Vertices(mode, arrays, first, count)))
    {
      if count < 3 {
        return [];
      }
      var winding, done := winding0, 2;
      ghost var mode := ModeOf(winding0);
      FirstPair(arrays, first, count, mode);
      out := [];
      ghost var all, b: nat, k: nat := Batched(mode, Vertices(mode, arrays, first, count)), 0, 0;
      while done < count
        invariant 2 <= done <= count && Progress(mode, count, done, b, k) && Going(mode, count, done, b)
        invariant done < count ==> winding == winding0 && Carried(mode, Vertices(mode, arrays, first, count), b)
        invariant Valid() && out == Concat(all[..k])
        invariant Written(old(Value()), Value(), mode, arrays, first, count, b)
      {
        ghost var c := Value();
        out, done, winding, k := FanOrStripBatch(arrays, first, count, done, winding, b, out);
        NextWritten(old(Value()), c, Value(), mode, arrays, first, count, b);
        b := b + 1;
      }
      BatchCount(mode, count, b);
      assert all[..k] == all;
    }

    /** The two vertices that a strip or fan starts from. */
    method FirstPair(arrays: Arrays, first: int, count: nat, ghost mode: Mode)
      requires Valid() && mode != List && count >= 3
      modifies v, this`cull
      ensures Valid() && SameEntries(old(Value()), Value())
      ensures Carried(mode, Vertices(mode, arrays, first, count), 0)
    {
      FirstTwo(mode, arrays, first, count);
      cull := CLIP_ALL;
      Load(0, arrays, first, 2, Vertices(mode, arrays, first, count), 0);
      LoadingBuffer(old(Value()), Value(), arrays, first);
    }

    /** What one batch of a strip or fan hands to the next. */
    ghost predicate Carried(mode: Mode, s: seq<Compiled>, b: nat)
      requires Valid() && mode != List && Start(mode, b) <= |s|
      reads this, v
    {
      && v[0].c == (if mode == Fan then s[0] else s[70 * b]) && v[1].c == s[70 * b + 1]
      && cull == CullStart(mode, s, b)
    }

    /** One turn of the loop for strips and fans. */
    method FanOrStripBatch(arrays: Arrays, first: int, count: nat, done0: nat, winding0: int, ghost b: nat, before: seq<Triangle>)
      returns (out: seq<Triangle>, done: nat, winding: int, ghost k: nat)
      requires Valid() && 1 <= winding0 <= 2 && 3 <= count && done0 == Start(ModeOf(winding0), b) < count
      requires Carried(ModeOf(winding0), Vertices(ModeOf(winding0), arrays, first, count), b)
      requires var mode := ModeOf(winding0);
               before == Concat(Batched(mode, Vertices(mode, arrays, first, count))[..FirstOf(mode, b)])
      modifies v, this`cull
      ensures Valid()
      ensures var mode := ModeOf(winding0);
              && done0 < done <= count && Progress(mode, count, done, b + 1, k) && Going(mode, count, done, b + 1)
              && out == Concat(Batched(mode, Vertices(mode, arrays, first, count))[..k])
              && (done < count ==> winding == winding0 && Carried(mode, Vertices(mode, arrays, first, count), b + 1))
              && BatchStep(old(Value()), Value(), mode, arrays, first, count, b)
    {
      winding := winding0;
      ghost var mode := ModeOf(winding0);
      ghost var s := Vertices(mode, arrays, first, count);
      var num := CompileBatch(ModeOf(winding0), 2, arrays, first, count, done0, b);
      done := done0 + num;
      ghost var parts;
      k, parts := NextBatch(mode, s, b, num, cull == {});
      out := before;
      if cull == {} {
        out, winding := AddFanOrStrip(num, winding0, s, b, parts, before);
      }
      if done < count {
        ghost var c := Value();
        CarryOver(winding, mode, s, b);
        StepThenSame(old(Value()), c, Value(), mode, arrays, first, count, b);
      }
    }

    method AddFanOrStrip(num: nat, winding0: int, ghost s: seq<Compiled>, ghost b: nat,
                         ghost parts: seq<seq<Triangle>>, before: seq<Triangle>)
      returns (out: seq<Triangle>, winding: int)
      requires Valid() && 1 <= winding0 <= 2 && 1 <= num <= 70 && |parts| == num && 70 * b + 2 + num <= |s|
      requires Loaded(2, s, 70 * b + 2, num) && v[1].c == s[70 * b + 1]
      requires v[0].c == if winding0 == 2 then s[0] else s[70 * b]
      requires forall t :: 0 <= t < |parts| ==> parts[t] == LocalTriangle(ModeOf(winding0), s, b, t)
      ensures out == before + Concat(parts)
      ensures num == 70 ==> winding == winding0
    {
      LoadedFromOne(this, s, 70 * b, num);
      out, winding := RenderFanOrStrip(num, winding0, s, b, parts);
      out := before + out;
    }

    /** For strips the last two vertices of a full batch become the first two; a fan keeps its
        first.  The clip planes the last two share start the next test either way. */
    method CarryOver(winding: int, ghost mode: Mode, ghost s: seq<Compiled>, ghost b: nat)
      requires Valid() && mode == ModeOf(winding) && 1 <= winding <= 2 && Start(mode, b + 1) <= |s|
      requires mode == Fan ==> v[0].c == s[0]
      requires Loaded(2, s, 70 * b + 2, 70)
      modifies v, this`cull
      ensures Valid() && Carried(mode, s, b + 1) && SameEntries(old(Value()), Value())
    {
      assert v[70].c == s[70 * b + 70] && v[71].c == s[70 * b + 71];
      if winding < 2 {
        v[0] := v[70];
      }
      v[1] := v[71];
      cull := v[70].c.flags * v[71].c.flags * CLIP_ALL;
    }

    method RenderAt(v0: int, v1: int, v2: int, ghost winding0: int, ghost s: seq<Compiled>, ghost b: nat, ghost i: nat, ghost winding: int)
      returns (out: seq<Triangle>)
      requires Valid() && 1 <= winding0 <= 2 && i < 70 && 70 * b + 2 + i < |s| && v2 == 2 + i
      requires Pointers(winding0, i, winding, v0, v1)
      requires Loaded(1, s, 70 * b + 1, i + 2) && v[0].c == if winding0 == 2 then s[0] else s[70 * b]
      ensures out == LocalTriangle(ModeOf(winding0), s, b, i)
    {
      ByPointers(winding0, s, b, i, winding, v0, v1);
      ghost var hub := if winding0 == 2 then s[0] else s[70 * b + v0];
      assert v[v0].c == hub && v[v1].c == s[70 * b + v1] && v[v2].c == s[70 * b + 2 + i];
      out := RenderTriangle(v0, v1, v2);
    }

    method RenderFanOrStrip(num: nat, winding0: int, ghost s: seq<Compiled>, ghost b: nat, ghost parts: seq<seq<Triangle>>)
      returns (out: seq<Triangle>, winding: int)
      requires Valid() && 1 <= winding0 <= 2 && 1 <= num <= 70 && |parts| == num && 70 * b + 2 + num <= |s|
      requires Loaded(1, s, 70 * b + 1, num + 1)
      requires v[0].c == if winding0 == 2 then s[0] else s[70 * b]
      requires forall t :: 0 <= t < |parts| ==> parts[t] == LocalTriangle(ModeOf(winding0), s, b, t)
      ensures out == Concat(parts)
      ensures num == 70 ==> winding == winding0
    {
      out, winding := [], winding0;
      var v0, v1, i := 0, 1, 0;
      while i < num
        invariant 0 <= i <= num
        invariant Pointers(winding0, i, winding, v0, v1)
        invariant out == Concat(parts[..i])
      {
        var v2 := 2 + i;
        ConcatNext(parts, i);
        NextPointers(winding0, i, winding, v0, v1);
        var triangle := RenderAt(v0, v1, v2, winding0, s, b, i, winding);
        out := out + triangle;
        winding := Exchanged(winding);
        if winding != 0 {
          v1, v2 := v2, v1;
        } else {
          v0, v2 := v2, v0;
        }
        i := i + 1;
      }
      assert parts[..i] == parts;
      EvenPointers(winding0, i, winding, v0, v1);
    }
  }

  /** winding ^ 1. */
  function Exchanged(winding: int): int {
    if winding % 2 == 1 then winding - 1 else winding + 1
  }

  /** A draw call of a program. */
  datatype Call =
    | Elements(arrays: Arrays, indices: seq<int>)
    | Positions(arrays: Arrays, mode: Mode, first: int, count: nat)

  /** The indices are uint16_t; the positions are counted in GLint, and leave no stale entry
      behind at this sequence number. */
  predicate Harmless(call: Call, sequence: int) {
    match call
    case Elements(_, indices) => Indices(indices)
    case Positions(_, mode, first, count) => Countable(first, count) && !Poisons(mode, first, count, sequence)
  }

  /** The sequence number after the first n calls. */
  function SequenceAfter(calls: seq<Call>, n: nat): int
    requires n <= |calls|
  {
    if n == 0 then 0
    else if calls[n - 1].Elements? && |calls[n - 1].indices| > 0 then NextSequence(SequenceAfter(calls, n - 1))
    else SequenceAfter(calls, n - 1)
  }

  /** What a draw call is to render: its own triangles, whatever was drawn before. */
  function Expected(call: Call): seq<Triangle> {
    match call
    case Elements(arrays, indices) => Wanted(arrays, indices)
    case Positions(arrays, mode, first, count) =>
      if count < 3 then []
      else if mode == Fan && count > 72 then Concat(Batched(Fan, Vertices(Fan, arrays, first, count)))
      else Concat(Unbatched(mode, Vertices(mode, arrays, first, count)))
  }

  /** Any run of draw calls on one context. */
  method Run(calls: seq<Call>, blank: Compiled) returns (out: seq<seq<Triangle>>)
    requires forall i :: 0 <= i < |calls| ==> Harmless(calls[i], SequenceAfter(calls, i))
    ensures |out| == |calls| && Answered(calls, out)
  {
    var cache := new VertexCache(blank);
    out := [];
    for i := 0 to |calls|
      invariant fresh(cache) && fresh(cache.v) && cache.Valid() && Quiet(cache.Value())
      invariant cache.sequence == SequenceAfter(calls, i)
      invariant |out| == i && Answered(calls, out)
    {
      out := DrawNext(cache, calls, i, out);
    }
  }

  method DrawNext(cache: VertexCache, calls: seq<Call>, i: nat, before: seq<seq<Triangle>>) returns (out: seq<seq<Triangle>>)
    requires i < |calls| && |before| == i && Answered(calls, before)
    requires cache.Valid() && Quiet(cache.Value()) && cache.sequence == SequenceAfter(calls, i) && Harmless(calls[i], cache.sequence)
    modifies cache, cache.v
    ensures cache.Valid() && Quiet(cache.Value()) && cache.sequence == SequenceAfter(calls, i + 1)
    ensures |out| == i + 1 && Answered(calls, out)
  {
    var rendered := Draw(cache, calls[i]);
    AnsweredNext(calls, before, rendered);
    out := before + [rendered];
  }

  /** Every call so far rendered what it was to render. */
  ghost predicate Answered(calls: seq<Call>, out: seq<seq<Triangle>>) {
    |out| <= |calls| && forall i :: 0 <= i < |out| ==> out[i] == Expected(calls[i])
  }

  lemma AnsweredNext(calls: seq<Call>, out: seq<seq<Triangle>>, next: seq<Triangle>)
    requires Answered(calls, out) && |out| < |calls| && next == Expected(calls[|out|])
    ensures Answered(calls, out + [next])
  {
    forall i | 0 <= i < |out| + 1 ensures (out + [next])[i] == Expected(calls[i]) {
      if i < |out| {
        assert (out + [next])[i] == out[i] && out[i] == Expected(calls[i]);
      } else {
        assert (out + [next])[i] == next && i == |out|;
      }
    }
  }

  method Draw(cache: VertexCache, call: Call) returns (out: seq<Triangle>)
    requires cache.Valid() && Quiet(cache.Value()) && Harmless(call, cache.sequence)
    modifies cache, cache.v
    ensures cache.Valid() && Quiet(cache.Value()) && out == Expected(call)
    ensures cache.sequence == if call.Elements? && |call.indices| > 0 then NextSequence(old(cache.sequence)) else old(cache.sequence)
  {
    match call
    case Elements(arrays, indices) =>
      DrawStaysQuiet(cache.Value(), arrays, indices);
      out := cache.DrawElements(arrays, indices);
    case Positions(arrays, mode, first, count) =>
      out := DrawPositions(cache, arrays, mode, first, count);
      QuietAfter(old(cache.Value()), cache.Value(), mode, arrays, first, count);
      if count >= 3 && !(mode == Fan && count > 72) {
        BatchedIsUnbatched(mode, Vertices(mode, arrays, first, count));
      }
  }

  /** glDrawArrays. */
  method DrawPositions(cache: VertexCache, arrays: Arrays, mode: Mode, first: int, count: nat) returns (out: seq<Triangle>)
    requires cache.Valid()
    modifies cache`cull, cache.v
    ensures cache.Valid() && After(old(cache.Value()), cache.Value(), mode, arrays, first, count)
    ensures out == if count < 3 then [] else Concat(Batched(mode, Vertices(mode, arrays, first, count)))
  {
    if mode == List {
      out := cache.DrawTriangles(arrays, first, count);
    } else {
      out := cache.DrawFanOrStrip(arrays, first, count, if mode == Fan then 2 else 1);
    }
  }

  /** In bounds, vertex k of a draw call is the element at its position. */
  lemma VerticesInReach(mode: Mode, arrays: Arrays, first: int, count: nat, k: nat)
    requires 0 <= first && first + count <= INDEX_SEQ && k < count
    ensures Vertices(mode, arrays, first, count)[k] == arrays(first + k)
  {
    StartBelow(mode, k);
  }

  lemma StartBelow(mode: Mode, k: nat)
    ensures VertexStart(mode, k) <= k
  {
  }

  /** It happens: after nine vertices from position 65592, the first indexed call renders the
      old vertex of element 64 instead of the new one. */
  method StaleVertex(former: Arrays, arrays: Arrays, blank: Compiled) returns (out: seq<Triangle>)
    ensures Poisons(List, 65592, 9, 0)
    ensures out == Kept(former(64), former(64), former(64))
    ensures Wanted(arrays, [64, 64, 64]) == Kept(arrays(64), arrays(64), arrays(64))
  {
    assert Leaves(List, 65592, 0, 0, 9, 0);
    WantsOne(arrays, 64);
    var cache := Spoiled(former, blank);
    StaleDraw(cache.Value(), 8, arrays, 64);
    out := cache.DrawElements(arrays, [64, 64, 64]);
  }

  method Spoiled(former: Arrays, blank: Compiled) returns (cache: VertexCache)
    ensures fresh(cache) && fresh(cache.v) && cache.Valid() && Idle(cache.Value()) && StaleNext(cache.Value(), 8)
    ensures cache.Value().v[8].c == former(64) && cache.Value().v[8].index - NextSequence(cache.sequence) == 64
  {
    cache := new VertexCache(blank);
    ghost var c := cache.Value();
    var drawn := cache.DrawTriangles(former, 65592, 9);
    StaleEight(c, cache.Value(), former);
  }

  lemma StaleEight(c: Cache, c': Cache, former: Arrays)
    requires After(c, c', List, former, 65592, 9) && Quiet(c) && c.sequence == 0
    ensures Idle(c') && StaleNext(c', 8)
    ensures c'.v[8].c == former(64) && c'.v[8].index - NextSequence(0) == 64
  {
    assert c'.v[8] == EntryAfter(List, former, 65592, 9, 1, 8, c.v[8]);
    EntryEight(former, c.v[8]);
  }

  lemma EntryEight(former: Arrays, was: Vertex)
    ensures EntryAfter(List, former, 65592, 9, 1, 8, was) == Vertex(former(64), 65600, was.locked)
  {
    assert EntryAfter(List, former, 65592, 9, 0, 8, was) == was;
  }

  function ModeOf(winding: int): Mode {
    if winding == 2 then Fan else Strip
  }

  /** Where the first two vertices of triangle i of a batch are. */
  predicate Pointers(winding0: int, i: nat, winding: int, v0: int, v1: int) {
    if winding0 == 2 then winding == 2 + i % 2 && v0 == 0 && v1 == i + 1
    else winding == 1 - i % 2 && v0 == i + i % 2 && v1 == i + 1 - i % 2
  }

  /** They are the vertices of triangle i, and become those of the next. */
  lemma ByPointers(winding0: int, s: seq<Compiled>, b: nat, i: nat, winding: int, v0: int, v1: int)
    requires 1 <= winding0 <= 2 && Pointers(winding0, i, winding, v0, v1) && 70 * b + 2 + i < |s|
    ensures 0 <= v0 < i + 2 && 1 <= v1 < i + 2
    ensures LocalTriangle(ModeOf(winding0), s, b, i)
         == Kept(if winding0 == 2 then s[0] else s[70 * b + v0], s[70 * b + v1], s[70 * b + 2 + i])
  {
  }

  lemma NextPointers(winding0: int, i: nat, winding: int, v0: int, v1: int)
    requires 1 <= winding0 <= 2 && Pointers(winding0, i, winding, v0, v1)
    ensures var w := Exchanged(winding);
            Pointers(winding0, i + 1, w, if w != 0 then v0 else i + 2, if w != 0 then i + 2 else v1)
  {
  }

  lemma LoadedFromOne(c: VertexCache, s: seq<Compiled>, base: nat, n: nat)
    requires c.Valid() && n <= 70 && base + 2 + n <= |s|
    requires c.Loaded(2, s, base + 2, n) && c.v[1].c == s[base + 1]
    ensures c.Loaded(1, s, base + 1, n + 1)
  {
  }

  lemma EvenPointers(winding0: int, i: nat, winding: int, v0: int, v1: int)
    requires 1 <= winding0 <= 2 && Pointers(winding0, i, winding, v0, v1)
    ensures i == 70 ==> winding == winding0
  {
  }

  /** Batch b - 1 was wanted, and what is left is after it. */
  predicate Going(mode: Mode, count: nat, done: nat, b: nat) {
    done == Min(count, Start(mode, b)) && (b > 0 ==> Start(mode, b - 1) + Fewest(mode) <= count)
  }

  /** How far a draw call is: before batch b, or at its end; k triangles are behind it. */
  ghost predicate Progress(mode: Mode, count: nat, done: nat, b: nat, k: nat) {
    || (done == Start(mode, b) && k == FirstOf(mode, b) && k <= Size(mode, count))
    || (done == count && k == Size(mode, count))
  }

  /** Triangle t of batch b, by the vertices of the batch. */
  function LocalTriangle(mode: Mode, s: seq<Compiled>, b: nat, t: nat): seq<Triangle>
    requires FirstOf(mode, b) + t < Size(mode, |s|)
  {
    match mode
    case List => Kept(s[72 * b + 3 * t], s[72 * b + 3 * t + 1], s[72 * b + 3 * t + 2])
    case Strip =>
      if t % 2 == 0 then Kept(s[70 * b + t], s[70 * b + t + 1], s[70 * b + t + 2])
      else Kept(s[70 * b + t + 1], s[70 * b + t], s[70 * b + t + 2])
    case Fan => Kept(s[0], s[70 * b + t + 1], s[70 * b + t + 2])
  }

  lemma LocalIs(mode: Mode, s: seq<Compiled>, b: nat, t: nat)
    requires FirstOf(mode, b) + t < Size(mode, |s|)
    ensures TriangleAt(mode, s, FirstOf(mode, b) + t) == LocalTriangle(mode, s, b, t)
  {
    match mode
    case List => SameIndex(b, t);
    case Strip => SameParity(b, t);
    case Fan =>
  }

  lemma SameIndex(b: nat, t: nat)
    ensures 3 * (24 * b + t) == 72 * b + 3 * t
  {
  }

  lemma SameParity(b: nat, t: nat)
    ensures (70 * b + t) % 2 == t % 2
  {
  }

  lemma LocalPart(mode: Mode, s: seq<Compiled>, b: nat, i: nat, t: nat)
    requires |s| >= 3 && Start(mode, b) < |s| && i == FirstOf(mode, b) + t < FirstOf(mode, b + 1) && i < Size(mode, |s|)
    ensures Batched(mode, s)[i] == Piece(mode, s, b, t)
  {
    BatchPart(mode, s, b, i);
    LocalIs(mode, s, b, t);
  }

  lemma InBatch(mode: Mode, count: nat, b: nat, n: nat, t: nat)
    requires count >= 3 && Start(mode, b) < count && n == BatchSize(mode, count, b) && t < Count(mode, n)
    ensures FirstOf(mode, b) + t < Size(mode, count) && FirstOf(mode, b) + t < FirstOf(mode, b + 1)
  {
    AfterBatch(mode, count, b);
  }

  /** What batch b renders of its triangles. */
  lemma BatchParts(mode: Mode, s: seq<Compiled>, b: nat, n: nat) returns (parts: seq<seq<Triangle>>)
    requires |s| >= 3 && Start(mode, b) < |s| && n == BatchSize(mode, |s|, b)
    ensures |parts| == Count(mode, n) && FirstOf(mode, b) + Count(mode, n) <= Size(mode, |s|)
    ensures BatchCull(mode, s, b) != {} ==> AllEmpty(parts)
    ensures BatchCull(mode, s, b) == {} ==> forall t :: 0 <= t < |parts| ==> parts[t] == LocalTriangle(mode, s, b, t)
    ensures parts == Batched(mode, s)[FirstOf(mode, b)..FirstOf(mode, b) + Count(mode, n)]
  {
    AfterBatch(mode, |s|, b);
    parts := Batched(mode, s)[FirstOf(mode, b)..FirstOf(mode, b) + Count(mode, n)];
    if BatchCull(mode, s, b) != {} {
      forall t | 0 <= t < |parts| ensures parts[t] == [] {
        PieceAt(mode, s, b, n, t, parts);
      }
    } else {
      forall t | 0 <= t < |parts| ensures parts[t] == LocalTriangle(mode, s, b, t) {
        PieceAt(mode, s, b, n, t, parts);
      }
    }
  }

  lemma PieceAt(mode: Mode, s: seq<Compiled>, b: nat, n: nat, t: nat, parts: seq<seq<Triangle>>)
    requires |s| >= 3 && Start(mode, b) < |s| && n == BatchSize(mode, |s|, b) && t < Count(mode, n)
    requires FirstOf(mode, b) + Count(mode, n) <= Size(mode, |s|)
    requires parts == Batched(mode, s)[FirstOf(mode, b)..FirstOf(mode, b) + Count(mode, n)]
    ensures parts[t] == Piece(mode, s, b, t)
  {
    InBatch(mode, |s|, b, n, t);
    LocalPart(mode, s, b, FirstOf(mode, b) + t, t);
    SliceAt(Batched(mode, s), FirstOf(mode, b), FirstOf(mode, b) + Count(mode, n), t);
  }

  /** What the batch renders of triangle t. */
  function Piece(mode: Mode, s: seq<Compiled>, b: nat, t: nat): seq<Triangle>
    requires Start(mode, b) <= |s| && FirstOf(mode, b) + t < Size(mode, |s|)
  {
    if BatchCull(mode, s, b) != {} then [] else LocalTriangle(mode, s, b, t)
  }

  /** Where the draw call is after batch b, and what the batch adds. */
  lemma NextBatch(mode: Mode, s: seq<Compiled>, b: nat, n: nat, visible: bool) returns (k: nat, parts: seq<seq<Triangle>>)
    requires |s| >= 3 && Start(mode, b) < |s| && n == BatchSize(mode, |s|, b)
    requires visible <==> BatchCull(mode, s, b) == {}
    ensures Progress(mode, |s|, Start(mode, b) + n, b + 1, k) && k <= Size(mode, |s|)
    ensures !visible ==> Concat(Batched(mode, s)[..k]) == Concat(Batched(mode, s)[..FirstOf(mode, b)])
    ensures visible ==> Concat(Batched(mode, s)[..k]) == Concat(Batched(mode, s)[..FirstOf(mode, b)]) + Concat(parts)
    ensures |parts| == Count(mode, n) && FirstOf(mode, b) + Count(mode, n) <= Size(mode, |s|)
    ensures visible ==> forall t :: 0 <= t < |parts| ==> parts[t] == LocalTriangle(mode, s, b, t)
  {
    k := ProgressAfter(mode, |s|, b, n);
    parts := BatchParts(mode, s, b, n);
    PrefixGrows(Batched(mode, s), FirstOf(mode, b), k, parts);
  }

  lemma PrefixGrows(all: seq<seq<Triangle>>, i: nat, j: nat, parts: seq<seq<Triangle>>)
    requires i <= j <= |all| && parts == all[i..j]
    ensures Concat(all[..j]) == Concat(all[..i]) + Concat(parts)
    ensures AllEmpty(parts) ==> Concat(all[..j]) == Concat(all[..i])
  {
    ConcatJoin(all, i, j);
    if AllEmpty(parts) {
      ConcatEmpty(parts);
      NothingAdded(Concat(all[..i]), Concat(parts));
    }
  }

  lemma NothingAdded(a: seq<Triangle>, b: seq<Triangle>)
    requires b == []
    ensures a + b == a
  {
  }

  lemma ProgressAfter(mode: Mode, count: nat, b: nat, n: nat) returns (k: nat)
    requires count >= 3 && Start(mode, b) < count && n == BatchSize(mode, count, b)
    ensures k == FirstOf(mode, b) + Count(mode, n) <= Size(mode, count)
    ensures Progress(mode, count, Start(mode, b) + n, b + 1, k)
  {
    AfterBatch(mode, count, b);
    k := FirstOf(mode, b) + Count(mode, n);
  }

  lemma SliceAt(all: seq<seq<Triangle>>, from: nat, end: nat, t: nat)
    requires from + t < end <= |all|
    ensures all[from..end][t] == all[from + t]
  {
  }
}
