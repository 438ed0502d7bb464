/** swrender/array.cpp: indexed draw calls on the entries of the vertex cache, and when the
    vertices they find there are the ones they ask for. */
module CacheModel {
  import opened Machine
  import opened Primitives

  /** An entry of the vertex buffer or cache, with its tag and lock. */
  datatype Vertex = Vertex(c: Compiled, index: int, locked: bool)

  /** The vertex arrays of one draw call: the compiled vertex of each element. */
  type Arrays = int -> Compiled

  const BUFFER_SIZE: int := 8
  const CACHE_SIZE: int := 64
  const TOTAL: int := 72
  const INDEX_SEQ: int := 0x1_0000

  /** Entries 0 to 7 are the vertex buffer, the others the cache. */
  datatype Cache = Cache(v: seq<Vertex>, sequence: int)

  predicate Valid(c: Cache) {
    |c.v| == TOTAL && 0 <= c.sequence < TWO31 && c.sequence % INDEX_SEQ == 0
  }

  /** The elements an index array names, compiled. */
  function Indexed(arrays: Arrays, indices: seq<int>): (s: seq<Compiled>)
    ensures |s| == |indices|
  {
    seq(|indices|, i requires 0 <= i < |indices| => arrays(indices[i]))
  }

  predicate Indices(indices: seq<int>) {
    forall i :: 0 <= i < |indices| ==> 0 <= indices[i] < INDEX_SEQ
  }

  /** What an indexed draw call is to render: each three indices compiled afresh. */
  function Wanted(arrays: Arrays, indices: seq<int>): seq<Triangle> {
    if |indices| < 3 then [] else Concat(Unbatched(List, Indexed(arrays, indices)))
  }

  // ---------------------------------------------------------------- what the calls do

  /** The entry a tag is looked up in. */
  function Slot(tag: int): (k: int)
    ensures BUFFER_SIZE <= k < TOTAL
  {
    BUFFER_SIZE + tag % CACHE_SIZE
  }

  /** The buffer entry taken while the cache entry is locked. */
  function Spare(c: Cache): (k: int)
    requires Valid(c)
    ensures 2 <= k < BUFFER_SIZE
  {
    2 + (if c.v[2].locked then 1 else 0) + (if c.v[3].locked then 2 else 0)
  }

  /** fetch_vertex: the entry that now holds the vertex, locked. */
  function Fetch(c: Cache, arrays: Arrays, index: int): (r: (Cache, int))
    requires Valid(c)
    ensures Valid(r.0) && r.0.sequence == c.sequence && 2 <= r.1 < TOTAL
  {
    var tag := c.sequence + index;
    var slot := Slot(tag);
    if c.v[slot].index == tag then (c.(v := c.v[slot := c.v[slot].(locked := true)]), slot)
    else
      var k := if c.v[slot].locked then Spare(c) else slot;
      (c.(v := c.v[k := Vertex(arrays(tag % INDEX_SEQ), tag, true)]), k)
  }

  function Unlocked(c: Cache, k: int): (r: Cache)
    requires Valid(c) && 0 <= k < TOTAL
    ensures Valid(r) && r.sequence == c.sequence
  {
    c.(v := c.v[k := c.v[k].(locked := false)])
  }

  /** One triangle: fetched, rendered, unlocked. */
  function DrawOne(c: Cache, arrays: Arrays, i0: int, i1: int, i2: int): (r: (Cache, seq<Triangle>))
    requires Valid(c)
    ensures Valid(r.0) && r.0.sequence == c.sequence
  {
    var (c0, k0) := Fetch(c, arrays, i0);
    var (c1, k1) := Fetch(c0, arrays, i1);
    var (c2, k2) := Fetch(c1, arrays, i2);
    (Unlocked(Unlocked(Unlocked(c2, k0), k1), k2), Kept(c2.v[k0].c, c2.v[k1].c, c2.v[k2].c))
  }

  /** The first n triangles of an index array. */
  function DrawSome(c: Cache, arrays: Arrays, indices: seq<int>, n: nat): (r: (Cache, seq<Triangle>))
    requires Valid(c) && 3 * n <= |indices|
    ensures Valid(r.0) && r.0.sequence == c.sequence
  {
    if n == 0 then (c, []) else DrawMore(DrawSome(c, arrays, indices, n - 1), arrays, indices, n - 1)
  }

  /** Triangle n after those of r. */
  function DrawMore(r: (Cache, seq<Triangle>), arrays: Arrays, indices: seq<int>, n: nat): (r': (Cache, seq<Triangle>))
    requires Valid(r.0) && 3 * n + 3 <= |indices|
    ensures Valid(r'.0) && r'.0.sequence == r.0.sequence
  {
    var (after, more) := DrawOne(r.0, arrays, indices[3 * n], indices[3 * n + 1], indices[3 * n + 2]);
    (after, r.1 + more)
  }

  lemma NextSome(c: Cache, arrays: Arrays, indices: seq<int>, n: nat, r: (Cache, seq<Triangle>), after: Cache, more: seq<Triangle>)
    requires Valid(c) && 3 * n + 3 <= |indices| && r == DrawSome(c, arrays, indices, n)
    requires DrawOne(r.0, arrays, indices[3 * n], indices[3 * n + 1], indices[3 * n + 2]) == (after, more)
    ensures DrawSome(c, arrays, indices, n + 1) == (after, r.1 + more)
  {
    assert DrawSome(c, arrays, indices, n + 1) == DrawMore(r, arrays, indices, n);
  }

  function NextSequence(sequence: int): int {
    if sequence + INDEX_SEQ >= TWO31 then INDEX_SEQ else sequence + INDEX_SEQ
  }

  /** A new sequence number; when they run out, they start over with all tags forgotten. */
  function Cleared(c: Cache): (r: Cache)
    requires Valid(c)
    ensures Valid(r) && r.sequence == NextSequence(c.sequence) > 0
  {
    if c.sequence + INDEX_SEQ >= TWO31
    then Cache(seq(TOTAL, k requires 0 <= k < TOTAL => c.v[k].(index := 0)), INDEX_SEQ)
    else c.(sequence := c.sequence + INDEX_SEQ)
  }

  /** glDrawElements for triangles. */
  function DrawElements(c: Cache, arrays: Arrays, indices: seq<int>): (r: (Cache, seq<Triangle>))
    requires Valid(c)
    ensures Valid(r.0)
  {
    if |indices| == 0 then (c, []) else DrawSome(Cleared(c), arrays, indices, |indices| / 3)
  }

  // ---------------------------------------------------------------- within a draw call

  /** The tag was made while the cache had this sequence number. */
  predicate Current(tag: int, sequence: int) {
    sequence <= tag < sequence + INDEX_SEQ
  }

  /** A cache entry that the look-up of its tag would find holds the vertex of that tag. */
  ghost predicate Sound(c: Cache, arrays: Arrays)
    requires Valid(c)
  {
    forall k :: BUFFER_SIZE <= k < TOTAL && Current(c.v[k].index, c.sequence) && k == Slot(c.v[k].index) ==>
      c.v[k].c == arrays(c.v[k].index - c.sequence)
  }

  /** The locked entries are these. */
  ghost predicate Holds(c: Cache, held: set<int>)
    requires Valid(c)
  {
    forall k :: 0 <= k < TOTAL ==> (c.v[k].locked <==> k in held)
  }

  lemma TagIndex(index: int, sequence: int)
    requires 0 <= index < INDEX_SEQ && sequence % INDEX_SEQ == 0
    ensures (sequence + index) % INDEX_SEQ == index
  {
  }

  /** With two entries held, one of them this cache entry, the buffer entry that the locks of
      entries 2 and 3 select is not held. */
  lemma FreeEntry(c: Cache, held: set<int>, slot: int)
    requires Valid(c) && Holds(c, held) && |held| <= 2 && slot in held && slot >= BUFFER_SIZE
    ensures Spare(c) !in held
  {
    var others := held - {slot};
    assert forall x :: x in held && x != slot ==> x in others;
    if 2 in held {
      Alone(others, 2);
    } else if 3 in held {
      Alone(others, 3);
    }
  }

  lemma Alone(s: set<int>, x: int)
    requires |s| <= 1 && x in s
    ensures s == {x}
  {
    assert |s - {x}| == 0;
  }

  /** A fetch gives a locked entry with the vertex of the index.  With at most two entries held,
      none of them changes, whatever entries the indices compete for. */
  lemma FetchSound(c: Cache, arrays: Arrays, index: int, held: set<int>)
    requires Valid(c) && Sound(c, arrays) && Holds(c, held) && |held| <= 2 && 0 <= index < INDEX_SEQ
    ensures var (c', k) := Fetch(c, arrays, index);
            && Sound(c', arrays) && Holds(c', held + {k}) && c'.v[k].c == arrays(index)
            && (forall j :: 0 <= j < TOTAL && j in held ==> c'.v[j] == c.v[j])
  {
    TagIndex(index, c.sequence);
    var slot := Slot(c.sequence + index);
    if c.v[slot].locked {
      FreeEntry(c, held, slot);
    }
  }

  lemma UnlockSound(c: Cache, arrays: Arrays, k: int, held: set<int>)
    requires Valid(c) && Sound(c, arrays) && Holds(c, held) && 0 <= k < TOTAL
    ensures Sound(Unlocked(c, k), arrays) && Holds(Unlocked(c, k), held - {k})
  {
  }

  lemma OneSound(c: Cache, arrays: Arrays, i0: int, i1: int, i2: int)
    requires Valid(c) && Sound(c, arrays) && Holds(c, {})
    requires 0 <= i0 < INDEX_SEQ && 0 <= i1 < INDEX_SEQ && 0 <= i2 < INDEX_SEQ
    ensures var (c', out) := DrawOne(c, arrays, i0, i1, i2);
            Sound(c', arrays) && Holds(c', {}) && out == Kept(arrays(i0), arrays(i1), arrays(i2))
  {
    var (c0, k0) := Fetch(c, arrays, i0);
    var (c1, k1) := Fetch(c0, arrays, i1);
    var (c2, k2) := Fetch(c1, arrays, i2);
    FetchSound(c, arrays, i0, {});
    FetchSound(c0, arrays, i1, {} + {k0});
    FetchSound(c1, arrays, i2, {} + {k0} + {k1});
    var all := {} + {k0} + {k1} + {k2};
    UnlockSound(c2, arrays, k0, all);
    UnlockSound(Unlocked(c2, k0), arrays, k1, all - {k0});
    UnlockSound(Unlocked(Unlocked(c2, k0), k1), arrays, k2, all - {k0} - {k1});
    assert all - {k0} - {k1} - {k2} == {};
  }

  /** Every triangle is the freshly compiled vertices of its three indices, and in the end
      nothing is locked. */
  lemma {:induction false} SomeSound(c: Cache, arrays: Arrays, indices: seq<int>, n: nat)
    requires Valid(c) && Sound(c, arrays) && Holds(c, {}) && Indices(indices) && 3 * n <= |indices| && |indices| >= 3
    ensures var (c', out) := DrawSome(c, arrays, indices, n);
            && Sound(c', arrays) && Holds(c', {})
            && out == Concat(Unbatched(List, Indexed(arrays, indices))[..n])
  {
    if n > 0 {
      SomeSound(c, arrays, indices, n - 1);
      MoreSound(DrawSome(c, arrays, indices, n - 1), DrawSome(c, arrays, indices, n), arrays, indices, n - 1, n);
    }
  }

  lemma MoreSound(r: (Cache, seq<Triangle>), r': (Cache, seq<Triangle>), arrays: Arrays, indices: seq<int>, m: nat, n: nat)
    requires Valid(r.0) && Sound(r.0, arrays) && Holds(r.0, {}) && Indices(indices) && n == m + 1 && 3 * n <= |indices|
    requires r.1 == Concat(Unbatched(List, Indexed(arrays, indices))[..m]) && r' == DrawMore(r, arrays, indices, m)
    ensures Sound(r'.0, arrays) && Holds(r'.0, {}) && r'.1 == Concat(Unbatched(List, Indexed(arrays, indices))[..n])
  {
    OneSound(r.0, arrays, indices[3 * m], indices[3 * m + 1], indices[3 * m + 2]);
    PartsNext(arrays, indices, m);
  }

  lemma PartsNext(arrays: Arrays, indices: seq<int>, n: nat)
    requires 3 * n + 3 <= |indices|
    ensures var parts := Unbatched(List, Indexed(arrays, indices));
            Concat(parts[..n + 1])
              == Concat(parts[..n]) + Kept(arrays(indices[3 * n]), arrays(indices[3 * n + 1]), arrays(indices[3 * n + 2]))
  {
    IndexedPart(arrays, indices, n);
    ConcatNext(Unbatched(List, Indexed(arrays, indices)), n);
  }

  lemma IndexedPart(arrays: Arrays, indices: seq<int>, p: nat)
    requires 3 * p + 3 <= |indices|
    ensures Unbatched(List, Indexed(arrays, indices))[p]
         == Kept(arrays(indices[3 * p]), arrays(indices[3 * p + 1]), arrays(indices[3 * p + 2]))
  {
  }

  // ---------------------------------------------------------------- from call to call

  /** A later look-up of the entry's tag will find the entry, without having made it. */
  predicate Stale(c: Cache, k: int)
    requires Valid(c) && BUFFER_SIZE <= k < TOTAL
  {
    c.sequence + INDEX_SEQ <= c.v[k].index < TWO31 && k == Slot(c.v[k].index)
  }

  /** ... and it is the next indexed call that can do so. */
  predicate StaleNext(c: Cache, k: int)
    requires Valid(c) && BUFFER_SIZE <= k < TOTAL
  {
    Stale(c, k) && Current(c.v[k].index, NextSequence(c.sequence))
  }

  ghost predicate Idle(c: Cache) {
    Valid(c) && Holds(c, {})
  }

  /** Between calls nothing is locked, and no entry is stale. */
  ghost predicate Quiet(c: Cache) {
    Idle(c) && forall k :: BUFFER_SIZE <= k < TOTAL ==> !Stale(c, k)
  }

  lemma ClearedSound(c: Cache, arrays: Arrays)
    requires Idle(c) && forall k :: BUFFER_SIZE <= k < TOTAL ==> !StaleNext(c, k)
    ensures Sound(Cleared(c), arrays) && Holds(Cleared(c), {})
  {
    LastSequence(NextSequence(c.sequence));
    forall k | BUFFER_SIZE <= k < TOTAL && Current(Cleared(c).v[k].index, NextSequence(c.sequence))
      ensures k != Slot(Cleared(c).v[k].index)
    {
      assert !StaleNext(c, k);
    }
  }

  lemma LastSequence(sequence: int)
    requires sequence < TWO31 && sequence % INDEX_SEQ == 0
    ensures sequence + INDEX_SEQ <= TWO31
  {
  }

  /** The next indexed call renders what it is to, when no entry is stale for it. */
  lemma NextDraw(c: Cache, arrays: Arrays, indices: seq<int>)
    requires Idle(c) && Indices(indices) && forall k :: BUFFER_SIZE <= k < TOTAL ==> !StaleNext(c, k)
    ensures DrawElements(c, arrays, indices).1 == Wanted(arrays, indices)
    ensures Idle(DrawElements(c, arrays, indices).0)
  {
    ClearedSound(c, arrays);
    if |indices| >= 3 {
      SomeSound(Cleared(c), arrays, indices, |indices| / 3);
      var parts := Unbatched(List, Indexed(arrays, indices));
      assert parts[..|indices| / 3] == parts;
    }
  }

  /** A call renders from the stale entry when its indices name it. */
  lemma StaleDraw(c: Cache, k: int, arrays: Arrays, i: int)
    requires Idle(c) && BUFFER_SIZE <= k < TOTAL && StaleNext(c, k) && i == c.v[k].index - NextSequence(c.sequence)
    ensures DrawElements(c, arrays, [i, i, i]).1 == Kept(c.v[k].c, c.v[k].c, c.v[k].c)
  {
    StaleOne(Cleared(c), k, arrays, i);
    DrawsOne(c, arrays, i);
  }

  lemma StaleOne(c: Cache, k: int, arrays: Arrays, i: int)
    requires Valid(c) && BUFFER_SIZE <= k < TOTAL && k == Slot(c.v[k].index) && i == c.v[k].index - c.sequence
    ensures DrawOne(c, arrays, i, i, i).1 == Kept(c.v[k].c, c.v[k].c, c.v[k].c)
  {
    var c0 := Fetch(c, arrays, i).0;
    var c1 := Fetch(c0, arrays, i).0;
    FetchStale(c, k, arrays);
    FetchStale(c0, k, arrays);
    FetchStale(c1, k, arrays);
  }

  lemma FetchStale(c: Cache, k: int, arrays: Arrays)
    requires Valid(c) && BUFFER_SIZE <= k < TOTAL && k == Slot(c.v[k].index)
    ensures var (c', k') := Fetch(c, arrays, c.v[k].index - c.sequence);
            k' == k && c'.v[k] == c.v[k].(locked := true) && c'.sequence == c.sequence
  {
  }

  lemma DrawsOne(c: Cache, arrays: Arrays, i: int)
    requires Valid(c)
    ensures DrawElements(c, arrays, [i, i, i]).1 == DrawOne(Cleared(c), arrays, i, i, i).1
  {
    SomeOne(Cleared(c), arrays, i);
  }

  lemma SomeOne(c: Cache, arrays: Arrays, i: int)
    requires Valid(c)
    ensures DrawSome(c, arrays, [i, i, i], 1).1 == DrawOne(c, arrays, i, i, i).1
  {
    assert DrawSome(c, arrays, [i, i, i], 0) == (c, []);
    NothingBefore(DrawOne(c, arrays, i, i, i).1);
  }

  lemma NothingBefore(a: seq<Triangle>)
    ensures [] + a == a
  {
  }

  lemma WantsOne(arrays: Arrays, i: int)
    ensures Wanted(arrays, [i, i, i]) == Kept(arrays(i), arrays(i), arrays(i))
  {
    var parts := Unbatched(List, Indexed(arrays, [i, i, i]));
    IndexedPart(arrays, [i, i, i], 0);
    assert parts == [parts[0]];
    assert Concat(parts[..0]) == [];
  }

  /** A vertex of all arrays that is not the given one, and is visible. */
  function Another(c: Compiled): Compiled {
    Compiled({}, c.x + 1, c.y, c.z, c.w)
  }

  /** Exactly when no entry is stale for it does the next indexed call render what it is to,
      whatever its arrays and indices. */
  lemma NextDrawExact(c: Cache)
    requires Idle(c)
    ensures (forall arrays: Arrays, indices :: Indices(indices) ==>
               DrawElements(c, arrays, indices).1 == Wanted(arrays, indices))
       <==> forall k :: BUFFER_SIZE <= k < TOTAL ==> !StaleNext(c, k)
  {
    if forall k :: BUFFER_SIZE <= k < TOTAL ==> !StaleNext(c, k) {
      forall arrays: Arrays, indices | Indices(indices)
        ensures DrawElements(c, arrays, indices).1 == Wanted(arrays, indices)
      {
        NextDraw(c, arrays, indices);
      }
    } else {
      var k :| BUFFER_SIZE <= k < TOTAL && StaleNext(c, k);
      var arrays, indices := WrongDraw(c, k);
    }
  }

  lemma WrongDraw(c: Cache, k: int) returns (arrays: Arrays, indices: seq<int>)
    requires Idle(c) && BUFFER_SIZE <= k < TOTAL && StaleNext(c, k)
    ensures Indices(indices) && DrawElements(c, arrays, indices).1 != Wanted(arrays, indices)
  {
    var i, other := c.v[k].index - NextSequence(c.sequence), Another(c.v[k].c);
    arrays, indices := _ => other, [i, i, i];
    StaleDraw(c, k, arrays, i);
    WantsOne(arrays, i);
    AnotherDiffers(c.v[k].c);
  }

  lemma AnotherDiffers(c: Compiled)
    ensures Kept(c, c, c) != Kept(Another(c), Another(c), Another(c))
  {
    assert Kept(Another(c), Another(c), Another(c)) == [Triangle(Another(c), Another(c), Another(c))];
    assert c.x != Another(c).x;
  }

  // ---------------------------------------------------------------- any number of calls

  lemma FetchTags(c: Cache, arrays: Arrays, index: int, k: int)
    requires Valid(c) && 0 <= index < INDEX_SEQ && 0 <= k < TOTAL
    ensures var t := Fetch(c, arrays, index).0.v[k].index; t == c.v[k].index || Current(t, c.sequence)
  {
  }

  lemma OneTags(c: Cache, arrays: Arrays, i0: int, i1: int, i2: int, k: int)
    requires Valid(c) && 0 <= i0 < INDEX_SEQ && 0 <= i1 < INDEX_SEQ && 0 <= i2 < INDEX_SEQ && 0 <= k < TOTAL
    ensures var t := DrawOne(c, arrays, i0, i1, i2).0.v[k].index; t == c.v[k].index || Current(t, c.sequence)
  {
    var c0 := Fetch(c, arrays, i0).0;
    var c1 := Fetch(c0, arrays, i1).0;
    FetchTags(c, arrays, i0, k);
    FetchTags(c0, arrays, i1, k);
    FetchTags(c1, arrays, i2, k);
  }

  /** Entry k has its old tag, or a current one. */
  predicate Retagged(c: Cache, c': Cache, k: int)
    requires Valid(c) && Valid(c') && 0 <= k < TOTAL
  {
    c'.v[k].index == c.v[k].index || Current(c'.v[k].index, c.sequence)
  }

  lemma {:induction false} SomeTags(c: Cache, arrays: Arrays, indices: seq<int>, n: nat, k: int)
    requires Valid(c) && Indices(indices) && 3 * n <= |indices| && 0 <= k < TOTAL
    ensures Retagged(c, DrawSome(c, arrays, indices, n).0, k)
  {
    if n > 0 {
      var m, r' := n - 1, DrawSome(c, arrays, indices, n);
      SomeTags(c, arrays, indices, m, k);
      var r := DrawSome(c, arrays, indices, m);
      MoreTags(c, r, r', arrays, indices, m, k);
    }
  }

  lemma MoreTags(c: Cache, r: (Cache, seq<Triangle>), r': (Cache, seq<Triangle>), arrays: Arrays, indices: seq<int>, m: nat, k: int)
    requires Valid(c) && Valid(r.0) && Indices(indices) && 3 * m + 3 <= |indices| && 0 <= k < TOTAL
    requires r.0.sequence == c.sequence && r' == DrawMore(r, arrays, indices, m)
    requires Retagged(c, r.0, k)
    ensures Retagged(c, r'.0, k)
  {
    OneTags(r.0, arrays, indices[3 * m], indices[3 * m + 1], indices[3 * m + 2], k);
  }

  /** An indexed call leaves a quiet cache quiet. */
  lemma DrawStaysQuiet(c: Cache, arrays: Arrays, indices: seq<int>)
    requires Quiet(c) && Indices(indices)
    ensures Quiet(DrawElements(c, arrays, indices).0)
    ensures DrawElements(c, arrays, indices).1 == Wanted(arrays, indices)
  {
    NextDraw(c, arrays, indices);
    var c' := DrawElements(c, arrays, indices).0;
    if |indices| > 0 {
      forall k | BUFFER_SIZE <= k < TOTAL ensures !Stale(c', k) {
        SomeTags(Cleared(c), arrays, indices, |indices| / 3, k);
        assert !Stale(c, k);
      }
    }
  }

  /** n calls with a single index each: they draw nothing. */
  function Skipped(c: Cache, n: nat): (r: Cache)
    requires Valid(c)
    ensures Valid(r)
  {
    if n == 0 then c else DrawElements(Skipped(c, n - 1), _ => Compiled({}, 0, 0, 0, 0), [0]).0
  }

  lemma {:induction false} SkippedIs(c: Cache, n: nat)
    requires Valid(c) && c.sequence + n * INDEX_SEQ < TWO31
    ensures Skipped(c, n) == c.(sequence := c.sequence + n * INDEX_SEQ)
  {
    if n > 0 {
      SkippedIs(c, n - 1);
    }
  }

  lemma {:induction false} SkippedQuiet(c: Cache, n: nat)
    requires Quiet(c)
    ensures Quiet(Skipped(c, n))
  {
    if n > 0 {
      SkippedQuiet(c, n - 1);
      DrawStaysQuiet(Skipped(c, n - 1), _ => Compiled({}, 0, 0, 0, 0), [0]);
    }
  }

  /** A cache is quiet exactly when every indexed call from now on renders what it is to,
      however many calls come before it. */
  lemma QuietExact(c: Cache)
    requires Idle(c)
    ensures Quiet(c) <==>
              forall n: nat, arrays: Arrays, indices :: Indices(indices) ==>
                DrawElements(Skipped(c, n), arrays, indices).1 == Wanted(arrays, indices)
  {
    if Quiet(c) {
      forall n: nat, arrays: Arrays, indices | Indices(indices)
        ensures DrawElements(Skipped(c, n), arrays, indices).1 == Wanted(arrays, indices)
      {
        SkippedQuiet(c, n);
        DrawStaysQuiet(Skipped(c, n), arrays, indices);
      }
    } else {
      var k :| BUFFER_SIZE <= k < TOTAL && Stale(c, k);
      var n := CallsBefore(c, c.v[k].index);
      SkippedIs(c, n);
      var arrays, indices := WrongDraw(Skipped(c, n), k);
    }
  }

  /** How many calls come before the one that looks the tag up. */
  lemma CallsBefore(c: Cache, tag: int) returns (n: nat)
    requires Valid(c) && c.sequence + INDEX_SEQ <= tag < TWO31
    ensures c.sequence + n * INDEX_SEQ < TWO31
    ensures var s := c.sequence + n * INDEX_SEQ; NextSequence(s) == s + INDEX_SEQ && Current(tag, NextSequence(s))
  {
    n := (tag - c.sequence) / INDEX_SEQ - 1;
    var q, s := tag / INDEX_SEQ, c.sequence / INDEX_SEQ;
    DivModUnique(tag - c.sequence, INDEX_SEQ, q - s, tag % INDEX_SEQ);
  }
}
