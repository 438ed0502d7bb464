/** swrender/array.cpp: what draw calls without indices, which use the cache entries as a plain
    buffer, leave behind in them for the indexed calls that follow. */
module CachePositions {
  import opened Machine
  import opened Primitives
  import opened CacheModel

  /** The first entry of a batch: strips and fans keep two vertices before it. */
  function At(mode: Mode): nat {
    if mode == List then 0 else 2
  }

  /** An int32_t array position stored in the size_t tag. */
  function Tag(x: int): int {
    x % 0x1_0000_0000_0000_0000
  }

  /** Entry k after batch b. */
  function Overwritten(mode: Mode, arrays: Arrays, first: int, count: nat, b: nat, k: nat, was: Vertex): Vertex
    requires Start(mode, b) < count
  {
    if At(mode) <= k < At(mode) + BatchSize(mode, count, b) then
      var start, i := first + Start(mode, b), k - At(mode);
      Vertex(arrays(start % INDEX_SEQ + i), Tag(start + i), was.locked)
    else was
  }

  /** Entry k after the first b batches. */
  function EntryAfter(mode: Mode, arrays: Arrays, first: int, count: nat, b: nat, k: nat, was: Vertex): Vertex
    requires b > 0 ==> Start(mode, b - 1) < count
  {
    if b == 0 then was
    else Overwritten(mode, arrays, first, count, b - 1, k, EntryAfter(mode, arrays, first, count, b - 1, k, was))
  }

  /** The number of batches of a draw call. */
  function Batches(mode: Mode, count: nat): nat {
    if count < 3 then 0 else (count - 3) / Batch(mode) + 1
  }

  /** The fewest vertices that the loop goes on for. */
  function Fewest(mode: Mode): nat {
    if mode == List then 3 else 1
  }

  lemma BatchCount(mode: Mode, count: nat, b: nat)
    requires b > 0 && Start(mode, b - 1) + Fewest(mode) <= count < Start(mode, b) + Fewest(mode)
    ensures Batches(mode, count) == b
  {
    DivModUnique(count - 3, Batch(mode), b - 1, count - 3 - Batch(mode) * (b - 1));
  }

  lemma LastBatch(mode: Mode, count: nat)
    requires count >= 3
    ensures var b := Batches(mode, count); b > 0 && Start(mode, b - 1) + Fewest(mode) <= count < Start(mode, b) + Fewest(mode)
  {
    DivBounds(count - 3, Batch(mode));
  }

  /** Nothing becomes locked, and the sequence number stays. */
  ghost predicate Steady(c: Cache, c': Cache) {
    Valid(c) && Valid(c') && c'.sequence == c.sequence && (Holds(c, {}) ==> Holds(c', {}))
  }

  /** The cache before and after n neighbouring positions are compiled into entries from `at`. */
  ghost predicate Loading(c: Cache, c': Cache, at: nat, arrays: Arrays, first: int, n: nat) {
    && Valid(c) && Valid(c') && c'.sequence == c.sequence
    && forall k :: 0 <= k < TOTAL ==>
         c'.v[k] == if at <= k < at + n then Vertex(arrays(first % INDEX_SEQ + (k - at)), Tag(first + (k - at)), c.v[k].locked)
                    else c.v[k]
  }

  /** ... and batch b. */
  ghost predicate BatchStep(c: Cache, c': Cache, mode: Mode, arrays: Arrays, first: int, count: nat, b: nat) {
    && Steady(c, c') && Start(mode, b) < count
    && forall k :: BUFFER_SIZE <= k < TOTAL ==> c'.v[k] == Overwritten(mode, arrays, first, count, b, k, c.v[k])
  }

  /** ... and the first b batches of a draw call. */
  ghost predicate Written(c: Cache, c': Cache, mode: Mode, arrays: Arrays, first: int, count: nat, b: nat) {
    && Steady(c, c') && (b > 0 ==> Start(mode, b - 1) < count)
    && forall k :: BUFFER_SIZE <= k < TOTAL ==> c'.v[k] == EntryAfter(mode, arrays, first, count, b, k, c.v[k])
  }

  /** ... and the whole draw call. */
  ghost predicate After(c: Cache, c': Cache, mode: Mode, arrays: Arrays, first: int, count: nat) {
    Written(c, c', mode, arrays, first, count, Batches(mode, count))
  }

  /** The cache entries are the same. */
  ghost predicate SameEntries(c: Cache, c': Cache) {
    Steady(c, c') && forall k :: BUFFER_SIZE <= k < TOTAL ==> c'.v[k] == c.v[k]
  }

  lemma NextLoading(c: Cache, c': Cache, c'': Cache, at: nat, arrays: Arrays, first: int, n: nat)
    requires Loading(c, c', at, arrays, first, n) && at + n < TOTAL
    requires c'' == c'.(v := c'.v[at + n := Vertex(arrays(first % INDEX_SEQ + n), Tag(first + n), c'.v[at + n].locked)])
    ensures Loading(c, c'', at, arrays, first, n + 1)
  {
  }

  lemma LoadingIsStep(c: Cache, c': Cache, mode: Mode, arrays: Arrays, first: int, count: nat, b: nat, at: nat, from: int, n: nat)
    requires Start(mode, b) < count && at == At(mode) && from == first + Start(mode, b) && n == BatchSize(mode, count, b)
    requires Loading(c, c', at, arrays, from, n)
    ensures BatchStep(c, c', mode, arrays, first, count, b)
  {
    forall k | BUFFER_SIZE <= k < TOTAL ensures c'.v[k] == Overwritten(mode, arrays, first, count, b, k, c.v[k]) {
    }
  }

  lemma LoadingBuffer(c: Cache, c': Cache, arrays: Arrays, first: int)
    requires Loading(c, c', 0, arrays, first, 2)
    ensures SameEntries(c, c')
  {
  }

  lemma StepThenSame(c: Cache, c': Cache, c'': Cache, mode: Mode, arrays: Arrays, first: int, count: nat, b: nat)
    requires BatchStep(c, c', mode, arrays, first, count, b) && SameEntries(c', c'')
    ensures BatchStep(c, c'', mode, arrays, first, count, b)
  {
  }

  lemma NextWritten(c: Cache, c': Cache, c'': Cache, mode: Mode, arrays: Arrays, first: int, count: nat, b: nat)
    requires Written(c, c', mode, arrays, first, count, b) && BatchStep(c', c'', mode, arrays, first, count, b)
    ensures Written(c, c'', mode, arrays, first, count, b + 1)
  {
  }

  // ---------------------------------------------------------------- which calls leave stale entries

  /** The position in entry k after batch b. */
  function Position(mode: Mode, first: int, b: nat, k: int): int {
    first + Batch(mode) * b + k
  }

  /** The entries of batch b are the ones their tags are looked up in. */
  predicate Aligned(mode: Mode, first: int, b: nat) {
    (first + Batch(mode) * b + BUFFER_SIZE) % CACHE_SIZE == 0
  }

  /** One of the cache entries from lo to hi, left by batch b, is stale. */
  predicate Leaves(mode: Mode, first: int, b: nat, lo: int, hi: int, sequence: int) {
    Max(lo, BUFFER_SIZE) < hi && Aligned(mode, first, b) && Position(mode, first, b, hi - 1) >= sequence + INDEX_SEQ
  }

  /** ... and it is stale for the next indexed call. */
  predicate LeavesNext(mode: Mode, first: int, b: nat, lo: int, hi: int, sequence: int) {
    Leaves(mode, first, b, lo, hi, sequence) && Position(mode, first, b, Max(lo, BUFFER_SIZE)) < sequence + 2 * INDEX_SEQ
  }

  /** The entry after the last vertex of the draw call. */
  function EndOf(mode: Mode, count: nat): int
    requires count >= 3
  {
    At(mode) + BatchSize(mode, count, Batches(mode, count) - 1)
  }

  /** The draw call leaves a stale entry: by its last batch, or by the batch before in the
      entries that the last one did not reach. */
  predicate Poisons(mode: Mode, first: int, count: nat, sequence: int) {
    count >= 3 &&
    var last, end := Batches(mode, count) - 1, EndOf(mode, count);
    Leaves(mode, first, last, 0, end, sequence) || (last > 0 && Leaves(mode, first, last - 1, end, TOTAL, sequence))
  }

  predicate PoisonsNext(mode: Mode, first: int, count: nat, sequence: int) {
    count >= 3 &&
    var last, end := Batches(mode, count) - 1, EndOf(mode, count);
    LeavesNext(mode, first, last, 0, end, sequence) || (last > 0 && LeavesNext(mode, first, last - 1, end, TOTAL, sequence))
  }

  /** GLint arithmetic on the positions does not overflow. */
  predicate Countable(first: int, count: nat) {
    -TWO31 <= first && first + count < TWO31
  }

  /** A call below the index range leaves nothing stale. */
  lemma ReachIsHarmless(mode: Mode, first: int, count: nat, sequence: int)
    requires first + count <= INDEX_SEQ && sequence >= 0
    ensures !Poisons(mode, first, count, sequence)
  {
    if count >= 3 {
      LastBatch(mode, count);
    }
  }

  /** The batch that entry k was last written by. */
  lemma Writer(mode: Mode, arrays: Arrays, first: int, count: nat, k: nat, was: Vertex)
    requires count >= 3 && BUFFER_SIZE <= k < TOTAL
    ensures var last, end := Batches(mode, count) - 1, EndOf(mode, count);
            && last >= 0 && Start(mode, last) < count
            && var e := EntryAfter(mode, arrays, first, count, last + 1, k, was);
               && (k < end ==> e.index == Tag(Position(mode, first, last, k)))
               && (k >= end && last > 0 ==> e.index == Tag(Position(mode, first, last - 1, k)))
               && (k >= end && last == 0 ==> e == was)
  {
    LastBatch(mode, count);
    var last := Batches(mode, count) - 1;
    if last > 0 {
      FullBatch(mode, count, last - 1);
    }
  }

  lemma FullBatch(mode: Mode, count: nat, b: nat)
    requires Start(mode, b + 1) + Fewest(mode) <= count
    ensures BatchSize(mode, count, b) == Batch(mode) && At(mode) + Batch(mode) == TOTAL
  {
  }

  /** An entry written by batch b is stale exactly when the batch is aligned and its position
      belongs to a later sequence number. */
  lemma StalePosition(mode: Mode, first: int, b: nat, k: int, tag: int, sequence: int)
    requires BUFFER_SIZE <= k < TOTAL && sequence >= 0
    requires -TWO31 <= Position(mode, first, b, k) < TWO31 && tag == Tag(Position(mode, first, b, k))
    ensures sequence + INDEX_SEQ <= tag < TWO31 && k == Slot(tag)
       <==> Aligned(mode, first, b) && Position(mode, first, b, k) >= sequence + INDEX_SEQ
    ensures tag < TWO31 ==> tag == Position(mode, first, b, k)
  {
    var x := Position(mode, first, b, k);
    if x >= 0 {
      SameResidue(x, k - BUFFER_SIZE);
    }
  }

  lemma SameResidue(x: int, r: int)
    requires 0 <= r < CACHE_SIZE
    ensures x % CACHE_SIZE == r <==> (x - r) % CACHE_SIZE == 0
  {
    var q := x / CACHE_SIZE;
    if (x - r) % CACHE_SIZE == 0 {
      DivModUnique(x, CACHE_SIZE, (x - r) / CACHE_SIZE, r);
    } else if x % CACHE_SIZE == r {
      DivModUnique(x - r, CACHE_SIZE, q, 0);
    }
  }

  /** Entry k is stale after the call. */
  predicate StaleAt(mode: Mode, first: int, count: nat, k: int, sequence: int) {
    count >= 3 &&
    var last := Batches(mode, count) - 1;
    if k < EndOf(mode, count) then StaleBy(mode, first, last, k, sequence)
    else last > 0 && StaleBy(mode, first, last - 1, k, sequence)
  }

  predicate StaleBy(mode: Mode, first: int, b: nat, k: int, sequence: int) {
    Aligned(mode, first, b) && Position(mode, first, b, k) >= sequence + INDEX_SEQ
  }

  /** Its position. */
  function PositionAt(mode: Mode, first: int, count: nat, k: int): int
    requires count >= 3
  {
    var last := Batches(mode, count) - 1;
    if k < EndOf(mode, count) || last == 0 then Position(mode, first, last, k) else Position(mode, first, last - 1, k)
  }

  lemma EntryStale(c: Cache, c': Cache, mode: Mode, arrays: Arrays, first: int, count: nat, k: int)
    requires After(c, c', mode, arrays, first, count) && Quiet(c) && Countable(first, count) && BUFFER_SIZE <= k < TOTAL
    ensures Stale(c', k) <==> StaleAt(mode, first, count, k, c.sequence)
    ensures Stale(c', k) ==> c'.v[k].index == PositionAt(mode, first, count, k)
  {
    if count >= 3 {
      var last := Batches(mode, count) - 1;
      Writer(mode, arrays, first, count, k, c.v[k]);
      LastBatch(mode, count);
      assert !Stale(c, k);
      if k < EndOf(mode, count) {
        StalePosition(mode, first, last, k, c'.v[k].index, c.sequence);
      } else if last > 0 {
        StalePosition(mode, first, last - 1, k, c'.v[k].index, c.sequence);
      }
    } else {
      assert !Stale(c, k);
    }
  }

  lemma EntryStaleNext(c: Cache, c': Cache, mode: Mode, arrays: Arrays, first: int, count: nat, k: int)
    requires After(c, c', mode, arrays, first, count) && Quiet(c) && Countable(first, count) && BUFFER_SIZE <= k < TOTAL
    ensures StaleNext(c', k) <==> StaleNextAt(mode, first, count, k, c.sequence)
  {
    EntryStale(c, c', mode, arrays, first, count, k);
  }

  /** Some entry is stale exactly when the call poisons. */
  lemma PoisonsIsStale(mode: Mode, first: int, count: nat, sequence: int)
    ensures Poisons(mode, first, count, sequence) <==>
              exists k :: BUFFER_SIZE <= k < TOTAL && StaleAt(mode, first, count, k, sequence)
  {
    if count >= 3 {
      LastBatch(mode, count);
      var last, end := Batches(mode, count) - 1, EndOf(mode, count);
      if Leaves(mode, first, last, 0, end, sequence) {
        assert StaleAt(mode, first, count, end - 1, sequence);
      } else if last > 0 && Leaves(mode, first, last - 1, end, TOTAL, sequence) {
        assert StaleAt(mode, first, count, TOTAL - 1, sequence);
      }
      if k :| BUFFER_SIZE <= k < TOTAL && StaleAt(mode, first, count, k, sequence) {
        if k < end {
          assert Leaves(mode, first, last, 0, end, sequence);
        } else {
          assert Leaves(mode, first, last - 1, end, TOTAL, sequence);
        }
      }
    }
  }

  /** Some entry is stale for the next indexed call exactly when the call poisons that one. */
  lemma PoisonsNextIsStale(mode: Mode, first: int, count: nat, sequence: int)
    ensures PoisonsNext(mode, first, count, sequence) <==>
              exists k :: BUFFER_SIZE <= k < TOTAL && StaleNextAt(mode, first, count, k, sequence)
  {
    if PoisonsNext(mode, first, count, sequence) {
      var k := StaleEntry(mode, first, count, sequence);
    }
    if k :| BUFFER_SIZE <= k < TOTAL && StaleNextAt(mode, first, count, k, sequence) {
      StalePoisons(mode, first, count, sequence, k);
    }
  }

  predicate StaleNextAt(mode: Mode, first: int, count: nat, k: int, sequence: int) {
    StaleAt(mode, first, count, k, sequence) && PositionAt(mode, first, count, k) < sequence + 2 * INDEX_SEQ
  }

  lemma StaleEntry(mode: Mode, first: int, count: nat, sequence: int) returns (k: int)
    requires PoisonsNext(mode, first, count, sequence)
    ensures BUFFER_SIZE <= k < TOTAL && StaleNextAt(mode, first, count, k, sequence)
  {
    LastBatch(mode, count);
    var last, end := Batches(mode, count) - 1, EndOf(mode, count);
    if LeavesNext(mode, first, last, 0, end, sequence) {
      k := InWindow(mode, first, last, BUFFER_SIZE, end, sequence);
    } else {
      k := InWindow(mode, first, last - 1, Max(end, BUFFER_SIZE), TOTAL, sequence);
    }
  }

  lemma StalePoisons(mode: Mode, first: int, count: nat, sequence: int, k: int)
    requires BUFFER_SIZE <= k < TOTAL && StaleNextAt(mode, first, count, k, sequence)
    ensures PoisonsNext(mode, first, count, sequence)
  {
    LastBatch(mode, count);
    var last, end := Batches(mode, count) - 1, EndOf(mode, count);
    if k < end {
      assert LeavesNext(mode, first, last, 0, end, sequence);
    } else {
      assert LeavesNext(mode, first, last - 1, end, TOTAL, sequence);
    }
  }

  /** A range of positions that reaches the next sequence number, and does not start behind it. */
  lemma InWindow(mode: Mode, first: int, b: nat, lo: int, hi: int, sequence: int) returns (k: int)
    requires lo < hi && Position(mode, first, b, hi - 1) >= sequence + INDEX_SEQ
    requires Position(mode, first, b, lo) < sequence + 2 * INDEX_SEQ
    ensures lo <= k < hi && sequence + INDEX_SEQ <= Position(mode, first, b, k) < sequence + 2 * INDEX_SEQ
  {
    k := Max(lo, lo + (sequence + INDEX_SEQ - Position(mode, first, b, lo)));
  }

  /** A draw call without indices leaves a quiet cache quiet unless it poisons: exactly then
      every indexed call from then on renders what it is to. */
  lemma QuietAfter(c: Cache, c': Cache, mode: Mode, arrays: Arrays, first: int, count: nat)
    requires After(c, c', mode, arrays, first, count) && Quiet(c) && Countable(first, count)
    ensures Quiet(c') <==> !Poisons(mode, first, count, c.sequence)
    ensures Idle(c')
    ensures !Poisons(mode, first, count, c.sequence) <==>
              forall n: nat, other: Arrays, indices :: Indices(indices) ==>
                DrawElements(Skipped(c', n), other, indices).1 == Wanted(other, indices)
  {
    forall k | BUFFER_SIZE <= k < TOTAL ensures Stale(c', k) <==> StaleAt(mode, first, count, k, c.sequence) {
      EntryStale(c, c', mode, arrays, first, count, k);
    }
    PoisonsIsStale(mode, first, count, c.sequence);
    QuietExact(c');
  }

  /** The next indexed call renders what it is to, for all arrays and indices, exactly when the
      call before it left no entry that is stale for it. */
  lemma NextDrawAfter(c: Cache, c': Cache, mode: Mode, arrays: Arrays, first: int, count: nat)
    requires After(c, c', mode, arrays, first, count) && Quiet(c) && Countable(first, count)
    ensures Idle(c')
    ensures !PoisonsNext(mode, first, count, c.sequence) <==>
              forall other: Arrays, indices :: Indices(indices) ==>
                DrawElements(c', other, indices).1 == Wanted(other, indices)
  {
    forall k | BUFFER_SIZE <= k < TOTAL
      ensures StaleNext(c', k) <==> StaleNextAt(mode, first, count, k, c.sequence)
    {
      EntryStaleNext(c, c', mode, arrays, first, count, k);
    }
    PoisonsNextIsStale(mode, first, count, c.sequence);
    NextDrawExact(c');
  }
}
