# Model of a software GL renderer's kernels

A Dafny model of five imperative kernels of the repository, each proved against an independent
statement of what it is for. `dafny verify dfyconfig.toml` checks everything.

**Fixed-point arithmetic** (`Machine`, `Division`, `MulDiv`, `SquareRoot`, `Reciprocal`).
Restoring division with its unrolled loop and its tail, 32 x 32 / 32 multiply-divide, the
digit-by-digit square root and the Newton reciprocal, on `int` with every narrowing written out
(`Wrap32`, `% TWO32`). Each is proved equal to, or within a bound of, the mathematical value.

**Triangle rasterizer** (`Raster`, `TriangleSmall`, `TriangleBig`, `TriangleCrossings`,
`TriangleSeams`). The half-space fill covers exactly the pixels whose centres pass its three
tests, unless they overflow, and these tests are watertight; the edge sweep visits exactly the
scanline centres between the extreme vertices, with exactly the two edges that cross each, and
its positions stay within a stated distance of the exact crossings. Two triangles with a common
side can overlap there; `TriangleSeams` says exactly when, and gives a condition on the vertices
under which they meet without gap or overlap. What a scanline or span callback receives is a
trace.

**Vertex cache and batched primitives** (`Primitives`, `CacheModel`, `CachePositions`,
`VertexCache`, `DrawnTriangles`). The direct-mapped cache with tags, locks and overflow entries renders what
compiling every vertex afresh would, over any sequence of draw calls that leave no stale tag
behind, and these calls are characterised exactly; batches that are rejected as a whole lose no
triangle of a strip or list. `CacheModel` is the cache as a value, `CachePositions` what draw
calls by position leave in it, the object of `VertexCache` performs both in place, and
`DrawnTriangles` says by positions and flag bits what comes out.
Vertex compilation is a function of the array element, and a flag word is the set of its one bits.

**Token allocator and Base32** (`Tokenizer`, `Base32`). Sorted runs refine a finite set and hand
out its least free element; a 16-bit bit converter drives an encoder and a decoder that undo each
other exactly on a stated domain.

**Task scheduler** (`Tasks`, `Schedule`, `ScheduleRuns`, `ScheduleAlarms`, `ScheduleViews`,
`TaskQueues`, `MessageLoop`, `RasterMerger`). Every section under the scheduler's lock is a function on the
state (`Schedule`); the objects of `Tasks` and `TaskQueues` are updated in place and proved to
perform those functions. `ScheduleRuns` proves what each step, and so each run, keeps,
`ScheduleAlarms` when the loops are woken, and `ScheduleViews` what the queues see. A heap is the sequence in which it hands out its tasks; the
closure of a task and an observer are numbers; `lastWake` records the argument of the last
`WakeUp`. The state also remembers which task was registered under each order number.
`RasterMerger` interleaves the sections of the lease protocol with all other scheduler steps;
`DecrementLease` is two of them. Time is an integer parameter. `FML_DCHECK` conditions are
preconditions; a failing `FML_CHECK` is a terminal state.

Where the code departs from its comments or its evident intent, the model follows the code:

- `libpixelflinger/fixed.cpp:320-321` promises 64-bit intermediate accuracy and INT_MAX on
  overflow. `MulDiv.GglMulDivi` gives the exact condition for each, and
  `MulDiv.QuickPathLosesQuotient` and `MulDiv.SlowPathOverflowWraps` inputs that break them.
- `swrender/array.cpp:969-988` masks only the first position of a batch, so that a draw call can
  leave tags of a later sequence number. `CachePositions.QuietAfter` says exactly which calls
  do; `VertexCache.StaleVertex` is a wrong triangle.
- `libpixelflinger/fixed.cpp:110` promises a square root of 24 bits. `SquareRoot.GglSqrtx` bounds
  the result from both sides; zero gives 255, and only from 16.0 on is it within one unit
  (`SquareRoot.SqrtAccuracy`).
- `libpixelflinger/trap.cpp:523-595` multiplies differences of coordinates as int.
  `TriangleSmall.LargeTriangleMisjudged` is a triangle that loses pixels; `TriangleSmall.Safe` is
  the condition under which none does, and `TriangleSmall.CornersExact` reduces it to four points.
- `libpixelflinger/trap.cpp:663-760` sets the lowest bit of every y and rounds slopes, so that fills
  of triangles on either side of a common side can draw a pixel twice
  (`TriangleSeams.TiltedOverlap`, `TriangleSeams.SteepOverlap`). `TriangleSeams.OverlapExact` says
  exactly when, and `TriangleSeams.NoGapNoOverlap` gives a condition on the vertices that excludes it.
- `base/base32.cc:28` appends the first byte without the cast of line 34. Where `char` is signed
  a first byte of 0x80 or more becomes a negative table index; `Base32.Encode` reports the index.
- `swrender/array.cpp:697-703` seeds the rejection test of a later fan batch from two rim
  vertices; `Primitives.FanExact` says exactly when that loses triangles.
- `base/message_loop_task_queues.cc:299-306` wakes nobody when the id is subsumed
  (`ScheduleRuns.StepWakes`, `ScheduleRuns.ResumeForgets`).
- `swrender/Tokenizer.cpp` accepts 0xffffffff and then loses the run that holds it
  (`Tokenizer.LastTokenLost`).
- The third-edge adjustment at `libpixelflinger/trap.cpp:812-814` never has anything to do
  (`TriangleBig.NothingToCatchUp`).

## Model

| member | source | states |
|---|---|---|
| Division.GglClz | include/ggl_fixed.h:233-247 | the binary search counts exactly the leading zeros of a non-negative int, and 0 for a negative one |
| Division.Normalised | libpixelflinger/fixed.cpp:177-182 | shifting the operands to a common length turns n*2^q/d into a quotient with exactly i digits, for either direction of the shift |
| Division.DecideByte | libpixelflinger/fixed.cpp:194-222 | one turn of the unrolled loop commits eight quotient digits at once: subtract or restore, digit by digit |
| Division.Digits | libpixelflinger/fixed.cpp:183-239 | the byte loop, the residual loop and the short path together produce the low 32 bits of the quotient, for every digit count from one up |
| Division.GglDivQ | libpixelflinger/fixed.cpp:174-240 | n*2^q/d truncated toward zero, modulo 2^32, for every dividend, zero included, every non-zero divisor and every digit count of at least one |
| Division.GglDivQ16 | include/ggl_fixed.h:253-261 | the same with sixteen fraction bits (gglDivQ16 and gglDivx) |
| Division.QuotientMeans | libpixelflinger/fixed.cpp:174-240 | that quotient leaves a remainder smaller than the divisor and has the sign of the operands |
| Division.DivQ16Terminates | include/ggl_fixed.h:253-256 | a divisor below 2^17 in magnitude meets the digit-count demand of gglDivQ16 for every non-zero dividend; for a zero dividend exactly the divisors below 2^16 do |
| MulDiv.QuickStep | libpixelflinger/fixed.cpp:298-317 | one digit of quick_muldiv: the partial remainder stays prefix*b - q*c and below c, or has left int32_t and never comes back |
| MulDiv.QuickMulDiv | libpixelflinger/fixed.cpp:290-319 | exact when every partial remainder fits, strictly too small otherwise, never odd for a zero divisor |
| MulDiv.BitSerial | libpixelflinger/fixed.cpp:274-286 | the long division keeps result*c + r equal to the part of the product shifted in, with 0 <= r < c |
| MulDiv.SlowMulDiv | libpixelflinger/fixed.cpp:256-288 | saturates when the high word of the product reaches c; otherwise the quotient modulo 2^32 |
| MulDiv.GglMulDivi | libpixelflinger/fixed.cpp:323-343 | the result is a*b/c truncated toward zero if and only if the quick path loses no remainder or the slow path's quotient fits; a quotient above INT_MAX comes out as 0x7fffffff with the right sign if and only if the high word of the product is at least abs(c) or zero; division by zero gives that value exactly when both factors are non-zero |
| MulDiv.SaturatedExact | libpixelflinger/fixed.cpp:323-343 | the saturated value is 0x7fffffff with the sign of a*b/c |
| MulDiv.QuickFitsExact | libpixelflinger/fixed.cpp:290-319 | the condition of the quick path without recursion: for every binary digit of a, twice the remainder of the digits before it, plus b for the digit, is below 2^31 |
| MulDiv.QuickFitsWhenSmall | libpixelflinger/fixed.cpp:290-318 | 2(c-1)+b below 2^31 is enough for the quick path to be exact, for every a |
| MulDiv.QuickPathLosesQuotient | libpixelflinger/fixed.cpp:320-343 | 2^30*2^30/(3*2^29) fits an int and is not computed, against the comment of lines 320-321 |
| MulDiv.SlowPathOverflowWraps | libpixelflinger/fixed.cpp:320-343 | 2^16*2^16/2 overflows and comes out as INT_MIN instead of INT_MAX, against the same comment |
| SquareRoot.TrialIsDigitPrice | libpixelflinger/fixed.cpp:113-117 | while digits are exact the trial value is (s+w)^2 - s^2 |
| SquareRoot.PriceFits | libpixelflinger/fixed.cpp:113-117 | no trial value leaves int32_t |
| SquareRoot.ExactStep | libpixelflinger/fixed.cpp:118-121 | one of the first sixteen iterations keeps the root bracketed and the remainder a - s^2 |
| SquareRoot.SettledStep | libpixelflinger/fixed.cpp:118-123 | the last eight iterations change only the low byte of the result |
| SquareRoot.LateTrial | libpixelflinger/fixed.cpp:113-117 | a late digit is charged its price rounded down to a multiple of 2^16 |
| SquareRoot.ChargedStep | libpixelflinger/fixed.cpp:113-121 | a late digit that is refused costs more than is left, and one that is taken is charged too little by less than one |
| SquareRoot.GglSqrtx | libpixelflinger/fixed.cpp:108-125 | for every a >= 0 the result r has 65536*a < (r+1)^2 and r^2 < 65536*(a+8), and shifted right by eight it is the integer square root of a; zero gives 255, a negative a gives 0 |
| SquareRoot.SqrtAccuracy | libpixelflinger/fixed.cpp:110 | from 16.0 on the result is the root in 16.16 rounded down, or one more |
| SquareRoot.SqrtUnique | libpixelflinger/fixed.cpp:108-125 | the integer square root is unique, so the contract of gglSqrtx determines the result's upper bits |
| Reciprocal.FirstGuess | libpixelflinger/fixed.cpp:41-47 | the linear guess is within 3/32 of the reciprocal on the whole normalised range |
| Reciprocal.StepSquares | libpixelflinger/fixed.cpp:48-53 | a Newton step squares the residual, up to its two truncations |
| Reciprocal.TwoSteps | libpixelflinger/fixed.cpp:41-53 | both steps together leave a residual below 82/2^20 |
| Reciprocal.GglRecipQNormalized | libpixelflinger/fixed.cpp:27-59 | sets exponent 29 - clz(abs(x)) and returns R with the sign of x and abs(abs(R)*abs(x) - 2^(61-clz)) <= 2^(48-clz); saturates for abs(x) <= 2 |
| Raster.SnapsAreNeighbours | include/ggl_context.h:71-84 | on odd positions TRI_SNAP_NEXT_HALF and TRI_SNAP_PREV_HALF give the two neighbouring scanline centres |
| TriangleSmall.SharedEdgeSplits | libpixelflinger/trap.cpp:550-556 | every pixel centre passes exactly one of the two biased tests of an edge shared in opposite directions |
| TriangleSmall.Orientation | libpixelflinger/trap.cpp:523-533 | the vertex exchange makes the triangle counter-clockwise |
| TriangleSmall.VertexOrderIrrelevant | libpixelflinger/trap.cpp:523-556 | which pixels a triangle covers does not depend on the order of its vertices |
| TriangleSmall.DegenerateCoversNothing | libpixelflinger/trap.cpp:550-556 | a triangle without area covers no pixel |
| TriangleSmall.InsideExact | libpixelflinger/trap.cpp:523-562 | a triangle covers the centres strictly inside all three sides, and of those on a side the ones with the third vertex to the right, or below when the side is horizontal |
| TriangleSmall.Watertight | libpixelflinger/trap.cpp:550-556 | two triangles on opposite sides of an edge share no pixel and leave none between them |
| TriangleSmall.InsideBox | libpixelflinger/trap.cpp:535-545 | a centre that passes the three tests lies in the bounding box, so the box loses nothing |
| TriangleSmall.RunEnds | libpixelflinger/trap.cpp:565-580 | on a row the passing centres are one run: after it ends no further centre passes |
| TriangleSmall.OrientationFits | libpixelflinger/trap.cpp:523-533 | neither product of the orientation test leaves int32_t when the bounding box, with its margin, has an area below 2^31 |
| TriangleSmall.EdgeValuesFit | libpixelflinger/trap.cpp:547-595 | with the vertices and the centre in such a box no edge value or product leaves int32_t, wherever the box is |
| TriangleSmall.RightTriangleExact | libpixelflinger/trap.cpp:523-533 | for a right triangle with legs along the axes these products fit if and only if the product of the legs is at most 2^31 |
| TriangleSmall.FillRow | libpixelflinger/trap.cpp:559-580 | the span [xl, xr) of a row is the first run of centres that pass all three tests as int32_t computes them |
| TriangleSmall.TrianglexSmall | libpixelflinger/trap.cpp:507-596 | the spans passed on cover, in every row of the clipped box, the first run of pixels that pass on int32_t; when the orientation test is right and the edge values in the box fit, these are exactly the scissored pixels inside; non-empty, one a row, rows downward |
| TriangleSmall.SafeIsInside | libpixelflinger/trap.cpp:523-586 | under that condition the first runs are exactly the scissored pixels whose centres pass the three tests |
| TriangleSmall.CornersExact | libpixelflinger/trap.cpp:547-595 | all edge values in the clipped box fit if and only if those at its four corners do |
| TriangleSmall.RoomyIsSafe | libpixelflinger/trap.cpp:507-596 | a bounding box, with a margin, of area below 2^31 - 1 is enough, wherever the triangle and the scissor are |
| TriangleSmall.LargeTriangleMisjudged | libpixelflinger/trap.cpp:523-586 | the triangle (0,0), (46400,0), (0,46400) in 28.4: a product wraps, the orientation test gives the wrong answer, and pixel (10,10) inside it is not filled |
| TriangleBig.RangeIsCrossings | libpixelflinger/trap.cpp:671-694 | y_top..y_bot of an edge are exactly the scanline centres of the clip range that it crosses, and the early returns skip only edges that cross none |
| TriangleBig.CrossedByNoneOrTwo | libpixelflinger/trap.cpp:773-779 | a scanline centre is crossed by no side of a triangle or by exactly two |
| TriangleBig.EdgeSetup | libpixelflinger/trap.cpp:663-717 | appends an edge exactly when it crosses a centre in the clip range, with its slope by gglDivQ16 and its position at the first centre |
| TriangleBig.TriangleSweepEdges | libpixelflinger/trap.cpp:719-760 | visits each centre from ytop to ybot once and in order, with iterators.y at its scanline, and leaves both edges stepped past the last |
| TriangleBig.RecordedCount | libpixelflinger/trap.cpp:771-779 | the recorded edge count is 0, 2 or 3, and 0 only when nothing is to be drawn |
| TriangleBig.PairPlan | libpixelflinger/trap.cpp:780-806 | two recorded edges span the same scanlines |
| TriangleBig.TriplePlan | libpixelflinger/trap.cpp:780-816 | of three recorded edges two start first, and the third takes over exactly where the shorter of them ends |
| TriangleBig.SelectEdges | libpixelflinger/trap.cpp:780-801 | the pointer exchanges find the edges that start first and the scanline ranges of the two sweeps |
| TriangleBig.NothingToCatchUp | libpixelflinger/trap.cpp:808-814 | the third edge starts on the first line of the second sweep, so the adjustment of lines 812-814 is never made |
| TriangleBig.SweepAll | libpixelflinger/trap.cpp:802-817 | the two sweeps join without a gap and cover all scanlines that are wanted |
| TriangleBig.TrianglexBig | libpixelflinger/trap.cpp:763-817 | visits every scanline centre of the scissor strictly between the smallest and largest y with its lowest bit set, once and downward, and no other, each between exactly the two edges that cross it |
| TriangleBig.EdgeError | libpixelflinger/trap.cpp:695-713 | after setup and k increments an edge is within 1 + (s-y1)/16 units of 2^-16 pixel of the exact crossing plus half a pixel, when nothing overflows |
| TriangleBig.NarrowEdgesFit | libpixelflinger/trap.cpp:695-713 | edges up to 2048 pixels wide near the origin do not overflow |
| TriangleCrossings.NearCrossing | libpixelflinger/trap.cpp:695-713 | on every scanline an edge is within 1 + (s-y1)/16 units of 2^-16 pixel of the exact crossing, a real number, when nothing overflows |
| TriangleCrossings.CrossingsCompare | libpixelflinger/trap.cpp:663-717 | of two sides from one vertex the one to c crosses a scanline further right if and only if c is to the right of the other side |
| TriangleSeams.VisitIs | libpixelflinger/trap.cpp:719-760 | the visit to a scanline is decided by the two sides that cross it: their positions there, in the order of position and then slope that the two edges have on the first scanline of both |
| TriangleSeams.PaintsExact | libpixelflinger/trap.cpp:719-760 | a pixel of a scanline is drawn if and only if it is in the scissor, from the floor of the position of the edge that comes first to before the floor of the other |
| TriangleSeams.PaintsInside | libpixelflinger/trap.cpp:719-760 | no pixel outside the scissor is drawn |
| TriangleSeams.CentresDecide | libpixelflinger/trap.cpp:663-760 | a pixel whose centre lies between the exact crossings by more than the errors of the edges is drawn, and one outside by as much is not |
| TriangleSeams.SharedSide | libpixelflinger/trap.cpp:663-717 | a side common to two triangles, given in either direction, is the same edge in both |
| TriangleSeams.EndsExact | libpixelflinger/trap.cpp:731-735 | a side is at the left end of the visit if and only if its edge comes first on that scanline or the two positions agree; likewise at the right end |
| TriangleSeams.OverlapExact | libpixelflinger/trap.cpp:719-760 | two triangles with a common side draw a pixel of a scanline twice if and only if both draw there and the common edge comes first in both, or second in both |
| TriangleSeams.NoGap | libpixelflinger/trap.cpp:719-760 | when it comes second in one and first in the other, every pixel from outer side to outer side is drawn |
| TriangleSeams.MeetExact | libpixelflinger/trap.cpp:719-760 | when the exact crossings on that first scanline are further apart than the errors of the two edges, it does so if and only if the vertices, with the lowest bit of y set, lie on different sides of the common side |
| TriangleSeams.NoGapNoOverlap | libpixelflinger/trap.cpp:719-760 | then no pixel is drawn twice and none between the outer sides is left out |
| TriangleSeams.QuarterPixel | libpixelflinger/trap.cpp:663-717 | for sides up to 2048 pixels wide near the origin, crossings a quarter of a pixel and two units apart are far enough apart |
| TriangleSeams.SquareMeets | libpixelflinger/trap.cpp:719-760 | the two halves of a square of ten pixels meet that condition on all its scanlines |
| TriangleSeams.TiltedOverlap | libpixelflinger/trap.cpp:679-680 | two fills of triangles strictly on different sides of (63,84)-(247,175) both draw pixel 12 of scanline 9, because setting the lowest bit of y takes a vertex across |
| TriangleSeams.SteepOverlap | libpixelflinger/trap.cpp:707-735 | with every y odd and the vertices on different sides of (361,361)-(30,29), two fills both draw pixel 22 of scanline 22, because the rounded slope exchanges two edges |
| Tokenizer.InsertedAdds | swrender/Tokenizer.cpp:129-160 | inserting a free token keeps the runs sorted, non-empty and apart, and adds exactly that token, in each of the four cases |
| Tokenizer.ReleasedRemoves | swrender/Tokenizer.cpp:71-100 | shrinking, dropping or splitting the run keeps the runs well formed and removes exactly the token |
| Tokenizer.LastTokenLost | swrender/Tokenizer.cpp:102-127 | the run that takes 0xffffffff has an end that wraps to 0, so the search finds no token of it any more |
| Tokenizer.Tokenizer.IndexOrderOf | swrender/Tokenizer.cpp:102-127 | the binary search finds the run that holds the token, or the position that splits the runs around it |
| Tokenizer.Tokenizer.IsAcquired | swrender/Tokenizer.cpp:55-58 | is membership in the set of tokens |
| Tokenizer.Tokenizer.InsertTokenAt | swrender/Tokenizer.cpp:129-160 | edits, inserts into and removes from the run vector as the specification says |
| Tokenizer.Tokenizer.Acquire | swrender/Tokenizer.cpp:41-53 | returns the least free token and adds exactly it; 0xffffffff, taken last, loses all runs |
| Tokenizer.Tokenizer.Reserve | swrender/Tokenizer.cpp:60-69 | adds exactly the token, or fails when it is held; with 0xffffffff the runs are lost |
| Tokenizer.Tokenizer.Release | swrender/Tokenizer.cpp:71-100 | removes exactly the token, or fails when it is not held |
| Tokenizer.LeastFreeBound | swrender/TokenManager.cpp:35-41 | with k tokens in use the least free one is at most k |
| Tokenizer.TokenManager.GetToken | swrender/TokenManager.cpp:35-41 | fills the array with the n least free tokens: distinct, increasing, not in use before, not zero |
| Tokenizer.TokenManager.RecycleTokens | swrender/TokenManager.cpp:43-52 | gives back exactly the listed tokens that are in use, never zero |
| Tokenizer.TokenManager.IsTokenValid | swrender/TokenManager.cpp:54-58 | is membership |
| Base32.BitConverter.Append | base/base32.h:20-25 | adds the bits behind the pending ones; the bitwise or loses nothing |
| Base32.BitConverter.AppendNegative | base/base32.h:20-25 | a negative argument passes the check and reaches the empty buffer with its sign |
| Base32.BitConverter.Extract | base/base32.h:27-33 | takes the oldest group of bits |
| Base32.BitConverter.Peek | base/base32.h:35 | is the next group, missing bits read as zero |
| Base32.BitConverter.CanAppend | base/base32.h:36-37 | holds exactly when the group fits beside the pending bits |
| Base32.BitConverter.CanExtract | base/base32.h:36-38 | holds exactly when a whole group is pending |
| Base32.Regroup | base/base32.cc:32-42 | regrouping a stream of k-bit values gives the values back |
| Base32.Ungroup | base/base32.cc:52-66 | a stream is its complete groups and what is left after them |
| Base32.SymbolOf | base/base32.cc:12 | the table is the alphabet of RFC 4648 |
| Base32.Lookup | base/base32.cc:44-60 | the decode table inverts the alphabet and refuses every other character |
| Base32.Alphabet | base/base32.cc:12 | the letters and then the digits from 2 to 7 |
| Base32.Base32Encode | base/base32.cc:14-42 | the loop is the code of section 6 of RFC 4648 without padding, when the first byte is below 0x80; otherwise it first reads its table at a negative index |
| Base32.Base32Decode | base/base32.cc:52-73 | gives the complete bytes of the valid prefix, and accepts exactly the texts of the alphabet whose left-over bits are zero |
| Base32.EncodedLength | base/base32.cc:23-24 | ceil(8n/5) characters |
| Base32.EncodedNumber | base/base32.cc:14-42 | the characters, as digits in base 32, make the number of the bytes in base 256, times the power of two that fills up the last one |
| Base32.DecodedNumber | base/base32.cc:52-73 | the bytes are the number of the valid characters without its last 5n mod 8 bits; a text is accepted if and only if all of it is valid and these bits are zero |
| Base32.DecodeUndoesEncode | base/base32.cc:14-73 | decoding the code of any byte string gives the string back |
| Base32.RoundTrip | base/base32.cc:14-73 | encode then decode returns (true, s) if and only if s is empty, or short enough with a first byte below 0x80 |
| Base32.EncodeUndoesDecode | base/base32.cc:14-73 | encoding what an accepted text decodes to gives (true, text) if and only if its length modulo 8 is 0, 2, 4, 5 or 7 and it is empty, or its first character is one of the first sixteen and it is not too long |
| Base32.Encodings | base/base32.cc:14-73 | the codes of byte strings are exactly the accepted texts of those lengths |
| Primitives.SharedRejects | swrender/array.cpp:684-692 | planes shared by three vertices reject their triangle |
| Primitives.NothingLost | swrender/array.cpp:684-704 | a triangle of a rejected batch of a strip or list, or of the first batch of a fan, is rejected by its own test |
| Primitives.BatchedIsUnbatched | swrender/array.cpp:654-746 | for every count the batched strip and list render the triangles of the unbatched ones, same order and winding; fans up to 72 vertices too |
| Primitives.FanExact | swrender/array.cpp:696-705 | a longer fan is complete if and only if in every later batch whose rim vertices share a clip plane each triangle, the hub included, shares one |
| Primitives.LongFanLosesTriangle | swrender/array.cpp:696-705 | a fan of 73 vertices whose last triangle is visible and not rendered |
| Primitives.ConcatExact | swrender/array.cpp:684-692 | leaving parts out changes what is rendered exactly when one of them is not empty |
| VertexCache.VertexCache.Clear | swrender/array.cpp:376-403 | advances the sequence number, or starts over and forgets all tags; afterwards no tag is current |
| VertexCache.VertexCache.CompileElement | swrender/array.cpp:955-967 | writes the vertex of the masked index and its tag, and leaves the lock |
| VertexCache.VertexCache.CompileElements | swrender/array.cpp:969-988 | writes neighbouring vertices, only the first position masked, and narrows cull by all of them |
| VertexCache.VertexCache.CacheVertex | swrender/array.cpp:460-482 | compiles into the entry, or, while it is locked, into the buffer entry chosen by the locks of entries 2 and 3 |
| CacheModel.FreeEntry | swrender/array.cpp:465-476 | with at most two entries held, the buffer entry so chosen is free |
| CacheModel.FetchSound | swrender/array.cpp:460-500 | a fetch gives a locked entry with the freshly compiled vertex, and changes none of at most two held entries, whatever entries the indices compete for |
| VertexCache.VertexCache.FetchVertex | swrender/array.cpp:485-500 | performs that fetch in place |
| VertexCache.VertexCache.DrawIndexedTriangles | swrender/array.cpp:910-951 | the loop over the triples, from a cache without locks, is the model's |
| VertexCache.VertexCache.DrawElements | swrender/array.cpp:1393-1453 | the whole call is the model's, from any cache without locks |
| CacheModel.SomeSound | swrender/array.cpp:910-951 | from a sound cache every triangle is the freshly compiled vertices of its three indices, and all locks are clear afterwards |
| CacheModel.DrawStaysQuiet | swrender/array.cpp:1393-1453 | from a quiet cache an indexed call renders the freshly compiled triangles and leaves the cache quiet, across sequence wrap-around |
| CacheModel.NextDrawExact | swrender/array.cpp:1393-1453 | from any cache without locks, the next indexed call renders the freshly compiled triangles for all arrays and indices if and only if no entry carries a tag that the call would take for its own in its own place |
| CacheModel.QuietExact | swrender/array.cpp:376-403 | the cache is quiet if and only if every later indexed call does so, however many calls lie between |
| CacheModel.WrongDraw | swrender/array.cpp:485-500 | arrays and indices for which such an entry is rendered wrongly |
| VertexCache.VertexCache.DrawTriangles | swrender/array.cpp:718-746 | renders the batched list |
| VertexCache.VertexCache.DrawFanOrStrip | swrender/array.cpp:654-706 | renders the batched strip or fan: two vertices carried from batch to batch in place, the winding kept by the parity of the batch size |
| VertexCache.VertexCache.CarryOver | swrender/array.cpp:696-704 | a strip carries its last two vertices, a fan its last one |
| VertexCache.ByPointers | swrender/array.cpp:685-692 | where the exchanged pointers are after i triangles: triangle i has the winding of the unbatched strip or fan |
| CachePositions.Writer | swrender/array.cpp:654-746 | which batch of a draw call last wrote each cache entry, and with which tag |
| CachePositions.StalePosition | swrender/array.cpp:969-988 | a tag so written can be found by a later look-up if and only if the batch starts 8 short of a multiple of 64 and the position belongs to a later sequence number |
| CachePositions.QuietAfter | swrender/array.cpp:969-988 | after an unindexed draw call all later indexed calls render correctly if and only if a condition on first, count, mode and sequence number holds |
| CachePositions.NextDrawAfter | swrender/array.cpp:969-988 | the same for the very next indexed call |
| CachePositions.ReachIsHarmless | swrender/array.cpp:969-988 | a call that stays below position 65536 always meets it |
| VertexCache.Run | swrender/array.cpp:1349-1453 | in any sequence of indexed and unindexed draw calls that meet that condition, each call renders what it would on a new context |
| VertexCache.StaleVertex | swrender/array.cpp:1349-1453 | glDrawArrays of nine vertices from position 65592, then glDrawElements of element 64 three times: the triangle rendered is that of the earlier arrays |
| VertexCache.VerticesInReach | swrender/array.cpp:969-988 | within bounds vertex k is the element at position first+k |
| DrawnTriangles.BatchedRenders | swrender/array.cpp:654-746 | of a list, strip or fan of any length exactly the triangles that no clip plane 0-5 or 8-13 has all outside are rendered, in order, with list corners 3i, 3i+1, 3i+2, strip corners i, i+1, i+2 with the first two exchanged for odd i, and fan corners 0, i+1, i+2; but for later batches of a fan whose rim shares a plane |
| DrawnTriangles.ElementsRender | swrender/array.cpp:910-951 | the same for an indexed call from a quiet cache, on the elements that the indices name |
| DrawnTriangles.ThreeIndices | swrender/array.cpp:910-951 | three indices give nothing when one of those planes has all three elements outside, and otherwise the triangle of the elements in the order of the indices |
| DrawnTriangles.PositionsRender | swrender/array.cpp:654-746 | the same for an unindexed call within the index range, on the elements from position first on |
| Tasks.AfterIsTotal | base/delayed_task.cc:36-41 | operator> is a strict total order on tasks with different order numbers |
| Tasks.HeapSorted | base/task_source.cc:23-35 | a heap hands its tasks out in that order |
| Tasks.InsertHeap | base/task_source.cc:23-35 | pushing keeps the heap and adds exactly the task |
| Tasks.TopIsLeast | base/task_source.cc:59-92 | empty means that nothing shows; otherwise Top is the unique least task of the primary and the unpaused secondary heap |
| Tasks.PopRemovesTop | base/task_source.cc:37-49 | popping by the grade of the top task removes exactly that task |
| Tasks.TaskSource.RegisterTask | base/task_source.cc:23-35 | pushes on the heap of the grade |
| Tasks.TaskSource.PopTask | base/task_source.cc:37-49 | pops the heap of the grade |
| Tasks.TaskSource.GetNumPendingTasks | base/task_source.cc:51-57 | counts the secondary heap only while it is not paused |
| Tasks.TaskSource.Top | base/task_source.cc:63-92 | the branches compute that least task |
| Schedule.PeekIsLeast | base/message_loop_task_queues.cc:310-366 | a queue has pending tasks if and only if it sees any; the peeked task is then the unique least one over its own and its subsumed queue's heaps |
| ScheduleRuns.NextIsLeast | base/message_loop_task_queues.cc:129-155 | GetNextTaskToRun returns a task if and only if a visible one is due, and then the unique least visible one |
| ScheduleRuns.StepInv | base/message_loop_task_queues.cc:63-306 | every locked section keeps owner_of/subsumed_by a symmetric matching of live distinct queues without double roles, the heaps in order, and order numbers unique |
| ScheduleRuns.StepPending | base/message_loop_task_queues.cc:63-306 | a section moves no task: it adds the registered one, removes the one it hands out, drops those it disposes of; merge, unmerge, pause and resume change none |
| ScheduleRuns.NextPending | base/message_loop_task_queues.cc:129-155 | the task handed out was waiting and is the only one removed |
| ScheduleRuns.StepConserves | base/message_loop_task_queues.cc:63-306 | registered tasks are always waiting, handed out or dropped, and only one of these |
| ScheduleRuns.WakeServes | base/message_loop_task_queues.cc:119-121 | waking a queue for its next task makes it served and leaves all others as they were |
| ScheduleRuns.StepWakes | base/message_loop_task_queues.cc:103-306 | where every past wake-up counts, no section loses one, except exactly these two: setting the wakeable of a queue that has visible tasks, and resuming the last pause of a subsumed queue with a secondary task its owner was not woken for |
| ScheduleRuns.ResumeServed | base/message_loop_task_queues.cc:299-306 | the exact effect of ResumeSecondarySource on every queue |
| ScheduleRuns.ResumeForgets | base/message_loop_task_queues.cc:299-306 | a run of eight sections from the initial state, ending with a resume, after which the owner of the resumed queue has a task to run and was never woken |
| ScheduleRuns.Reachable | base/message_loop_task_queues.cc:63-306 | over every run: matching, conservation, and no lost wake-up in that sense as long as neither of those two steps occurred |
| ScheduleAlarms.StepRings | base/message_loop_task_queues.cc:103-306 | RegisterTask, GetNextTaskToRun, Merge, Unmerge and ResumeSecondarySource tell exactly the loops they are to wake exactly the time that the earliest visible task is due, and every section leaves all other wake-ups alone |
| ScheduleAlarms.NextArms | base/message_loop_task_queues.cc:129-155 | a loop that asks for a task was told the time of the earliest one it saw; when it gets none, that time is still to come |
| ScheduleAlarms.StepBlind | base/message_loop_task_queues.cc:63-306 | what a section does depends on no earlier wake-up |
| ScheduleAlarms.EventOnTime | base/message_loop_task_queues.cc:103-306 | with wake-ups that fire when due, every event keeps each loop about to ask for a task, or to be woken no later than its earliest visible task is due, except exactly those two steps for a loop that is not about to ask |
| ScheduleAlarms.AlwaysOnTime | base/message_loop_task_queues.cc:63-306 | so over every run of sections and fired wake-ups |
| ScheduleViews.MergeExcludes | base/message_loop_task_queues.cc:227-251 | until it is unmerged a merged pair merges again in the same roles only, without effect; every other merge of either queue is refused without effect |
| ScheduleViews.MergeShows | base/message_loop_task_queues.cc:248-256 | after a merge the owner sees the tasks of both queues and the subsumed queue none |
| ScheduleViews.UnmergeSeparates | base/message_loop_task_queues.cc:259-279 | Unmerge succeeds exactly for a queue that owns another; then each of the two sees its own tasks only |
| ScheduleViews.UnmergeUndoesMerge | base/message_loop_task_queues.cc:227-279 | merge then unmerge leaves every queue seeing what it saw |
| ScheduleViews.PauseHides | base/message_loop_task_queues.cc:294-297 | pausing hides exactly the secondary tasks of that queue, from every queue |
| ScheduleViews.ResumeUndoesPause | base/message_loop_task_queues.cc:294-306 | pauses nest: resuming undoes one pause for every queue |
| ScheduleViews.NumPendingCounts | base/message_loop_task_queues.cc:164-180 | GetNumPendingTasks is the number of tasks the queue sees |
| ScheduleViews.RegisterShows | base/message_loop_task_queues.cc:103-122 | registering shows the task, with the next order number, to the queue and its owner as far as they see its grade, and nothing else |
| ScheduleViews.CreateAdds | base/message_loop_task_queues.cc:63-69 | a new queue has a new id, no links and no tasks |
| ScheduleViews.DisposeTasksHides | base/message_loop_task_queues.cc:87-96 | afterwards the queue sees nothing, and the others what they saw |
| ScheduleViews.DisposeRemoves | base/message_loop_task_queues.cc:76-85 | the queue and the one it subsumed are gone, the others untouched |
| TaskQueues.MessageLoopTaskQueues.CreateTaskQueue | base/message_loop_task_queues.cc:63-69 | adds a queue with a new id |
| TaskQueues.MessageLoopTaskQueues.RegisterTask | base/message_loop_task_queues.cc:103-122 | takes the next order number, pushes, and wakes the queue or its owner for the next task |
| TaskQueues.MessageLoopTaskQueues.HasPendingTasks | base/message_loop_task_queues.cc:124-127 | holds exactly when the queue sees a task |
| TaskQueues.MessageLoopTaskQueues.HasPendingTasksUnlocked | base/message_loop_task_queues.cc:310-329 | the branches on subsumed, empty and owned queues |
| TaskQueues.MessageLoopTaskQueues.PeekNextTaskUnlocked | base/message_loop_task_queues.cc:336-366 | the next task and the queue it is in |
| TaskQueues.MessageLoopTaskQueues.GetNextTaskToRun | base/message_loop_task_queues.cc:129-155 | wakes, and pops the next task if it is due |
| TaskQueues.MessageLoopTaskQueues.GetNumPendingTasks | base/message_loop_task_queues.cc:164-180 | sums both queues, and 0 for a subsumed one |
| TaskQueues.MessageLoopTaskQueues.GetObserversToNotify | base/message_loop_task_queues.cc:196-217 | the observers of both queues, none for a subsumed one |
| TaskQueues.MessageLoopTaskQueues.SetWakeable | base/message_loop_task_queues.cc:219-225 | sets it once |
| TaskQueues.MessageLoopTaskQueues.Merge | base/message_loop_task_queues.cc:227-257 | links two unlinked queues both ways and wakes the owner, or refuses |
| TaskQueues.MessageLoopTaskQueues.Unmerge | base/message_loop_task_queues.cc:259-279 | unlinks both ways and wakes both, or refuses |
| TaskQueues.MessageLoopTaskQueues.Owns | base/message_loop_task_queues.cc:281-286 | whether the one subsumed the other |
| TaskQueues.MessageLoopTaskQueues.PauseSecondarySource | base/message_loop_task_queues.cc:294-297 | one more pause |
| TaskQueues.MessageLoopTaskQueues.ResumeSecondarySource | base/message_loop_task_queues.cc:299-306 | one pause less, and wakes the queue itself |
| TaskQueues.MessageLoopTaskQueues.DisposeTasks | base/message_loop_task_queues.cc:87-96 | empties the queue and the one it subsumed |
| TaskQueues.MessageLoopTaskQueues.Dispose | base/message_loop_task_queues.cc:76-85 | removes the queue and the one it subsumed |
| MessageLoop.NextVisible | base/message_loop_task_queues.cc:129-155 | taking a task makes exactly it invisible, and lowers the number of pending tasks |
| MessageLoop.FlushIsExact | base/message_loop_impl.cc:120-140 | flushing all at a fixed time runs exactly the visible tasks that are due, each once, in strict (time, order) order, and leaves the others |
| MessageLoop.TurnsNotify | base/message_loop_impl.cc:120-140 | for the k-th task that runs there is one turn of the trace: the task, then the queue's own observers, then those of the queue it subsumed; a subsumed queue notifies nobody |
| MessageLoop.MessageLoopImpl.FlushTasks | base/message_loop_impl.cc:120-140 | the loop does that flush, or takes one task, and notifies all observers after each task; it terminates by the number of pending tasks |
| MessageLoop.MessageLoopImpl.DoRun | base/message_loop_impl.cc:89-113 | ends the loop: no more tasks accepted, due ones flushed, the rest dropped |
| MessageLoop.MessageLoopImpl.PostTask | base/message_loop_impl.cc:57-67 | registers, or drops the task once terminated |
| RasterMerger.StepLeased | base/raster_thread_merger.cc:29-68 | over every interleaving a positive lease means that the platform queue owns the gpu queue; a check fails exactly when queues that are not merged are to be unmerged |
| RasterMerger.StepSticks | base/raster_thread_merger.cc:29-68 | merged queues have a positive lease or a pending UnMergeNow, and only two steps end that: the last pending UnMergeNow finding the merger disabled, or a merge with a lease that is not positive as an int |
| RasterMerger.Reachable | base/raster_thread_merger.cc:29-68 | both over whole runs, with scheduler steps of others in between |
| RasterMerger.ElsewherePair | base/message_loop_task_queues.cc:63-306 | no other scheduler section changes the links of the pair |
| RasterMerger.LeaseLife | base/raster_thread_merger.cc:135-157 | a fresh lease of n survives n-1 decrements; the n-th returns kUnmergedNow and unmerges |
| RasterMerger.OneDecrement | base/raster_thread_merger.cc:135-157 | one decrement without interference |
| RasterMerger.DecrementExact | base/raster_thread_merger.cc:135-157 | in every state: kRemainsUnmerged if and only if the ids differ and there is no lease, kUnmergedNow if and only if they differ, the merger is enabled and the lease is one; disabled, or with one id, nothing changes |
| RasterMerger.MergeExact | base/raster_thread_merger.cc:29-52 | in every state: with one id, disabled or leased nothing changes, and otherwise the queues are merged with the lease as an int |
| RasterMerger.UnmergeExact | base/raster_thread_merger.cc:54-68 | in every state: with one id or disabled nothing changes, otherwise merged queues are unmerged with lease zero, and a check fails for others |
| RasterMerger.ExtendExact | base/raster_thread_merger.cc:82-92 | with one id nothing changes, and otherwise the longer lease as an int stays, disabled or not |
| RasterMerger.ExtendIsMax | base/raster_thread_merger.cc:82-92 | ExtendLeaseTo takes the longer of the two leases if and only if the new one is below 2^31 |
| RasterMerger.LongLease | base/raster_thread_merger.cc:29-52 | a lease of 2^31 is negative as an int: merged, and DecrementLease says unmerged |
| RasterMerger.RasterThreadMerger.MergeWithLease | base/raster_thread_merger.cc:29-52 | performs the section; false when FML_CHECK fails |
| RasterMerger.RasterThreadMerger.UnMergeNow | base/raster_thread_merger.cc:54-68 | performs the section; false when FML_CHECK fails |
| RasterMerger.RasterThreadMerger.ExtendLeaseTo | base/raster_thread_merger.cc:82-92 | performs the section |
| RasterMerger.RasterThreadMerger.DecrementLocked | base/raster_thread_merger.cc:135-151 | the part of DecrementLease before it unlocks |
| RasterMerger.RasterThreadMerger.DecrementLease | base/raster_thread_merger.cc:135-157 | both parts, with nothing in between |
| RasterMerger.RasterThreadMerger.Enable | base/raster_thread_merger.cc:99-102 | sets the flag |
| RasterMerger.RasterThreadMerger.Disable | base/raster_thread_merger.cc:104-107 | clears the flag |

## Left out

- Antialiased polygon coverage (`libpixelflinger/trap.cpp:951-1180`) is an approximation without a crisp specification.
- Floating-point code, vertex transforms, lighting, texturing, clipping and pixel writes; lighting that `renderTriangle` caches in a vertex does not touch its clip flags.
- Points, line primitives and indexed strips and fans: an indexed strip with a repeated index unlocks a vertex still in use, and a rejected line batch carries the wrong vertex over, so the clean statement does not hold there.
- The LRU and disabled variants of the vertex cache, which are not compiled in.
- Threads, condition variables, clocks, thread-local storage and platform loops; a locked section is one step. The grade stored in thread-local storage after a pop (`base/message_loop_task_queues.cc:149-153`) is read through a reference to the popped task and is not part of this model.
- `AddTaskObserver` and `RemoveTaskObserver`: a queue's observers are fixed.
- `SetMergeUnmergeCallback`, `WaitUntilMerged` and the thread predicates of the merger.
- Allocation failure in `Vector`, which the tokenizer would report as an error.
- The negation of INT_MIN, which is undefined, is excluded from the fixed-point kernels.
- Division.GglDivQ: a digit count below one is excluded, because the source's countdowns do not end then: for a negative count, as in gglDivQ16(1, 2^20) with its count of -3, that of the byte loop, and for a count of zero that of the residual loop.
- MulDiv.GglMulDivi: both factors zero is excluded, because `32 - clz` is then zero and the countdown of the quick path does not end.
- TriangleSmall.TrianglexSmall: coordinates from 2^30 on are excluded, because their differences overflow; products and edge values may wrap.
- TriangleBig.TrianglexBig: coordinates are limited so that the y with lowest bit set, the centre lines and the differences of x do not overflow; positions and slopes may wrap.
- TriangleBig.EdgeError: holds when no conversion to int32_t changes a value, as the hypothesis `EdgeFits` says; `TriangleBig.NarrowEdgesFit` gives a range in which none does.
- Tokenizer.TokenManager.GetToken: as many tokens as are asked for must be free below 0xffffffff, because the source hands that one out and then loses its runs.
- VertexCache.Run: calls that leave a stale tag (`CachePositions.Poisons`) are excluded, because a later indexed call then renders wrongly for some arrays and indices (`CachePositions.QuietAfter`); what such a call itself renders is still stated by the draw methods. Positions whose GLint arithmetic overflows are excluded too.
- MessageLoop.MessageLoopImpl.FlushTasks: the tasks that run do not post, pause or merge.
- RasterMerger.RasterThreadMerger.DecrementLease: stated without interference; the interleavings are the steps of `RasterMerger.Apply`.
