# imglib2 cursors, positions and the complex-double proxy, in Dafny

This project models five pieces of the imglib2 image library and proves what
they promise.

- **`ComplexDoubleType`.** A reusable handle onto an interleaved buffer of
  doubles. Pixel `i` keeps its real part in slot `2*i` and its imaginary part
  in slot `2*i+1`. The handle is rebound to another pixel by moving three
  counters (`i`, `realI`, `imaginaryI`) in step. Its setters write through to
  the two bound slots and to nothing else.
- **Iteration over a sub-interval.** A cursor over the inclusive box
  `[min, max]` of a flat, row-major image (axis 0 fastest). This is what the
  sub-interval cursor test asserts. The cursor starts at `min` and ends at
  `max`. It takes exactly the product of the extents as steps, and it visits
  exactly the in-box cells, each once, so its values sum to the test's
  reference sum. `jumpFwd(18)` lands on `min` moved 17 along axis 0. The
  test's two helpers, `getIntervalSize` and `getSum`, are modelled as loops.
  So is the row-major `indexToPosition` that `getSum` uses. It is proved to be
  a bijection with `positionToIndex`.
- **The stepping protocol of localizing cursors.** `next` is `fwd` then
  `get`. `jumpFwd(k)` is `k` calls of `fwd`, and two jumps compose. `remove`
  does nothing.
- **The older library's localizable cursor.** It holds an `int` position and
  the container's dimensions. Its `localize` copies the position into an
  `int[]` or a `long[]`.
- **The real-valued localizable.** It holds a `double[]` position, either
  fresh or wrapped from the caller's own array. Its `localize` copies the
  position into a `double[]`.

Files:

- `java_types.dfy`: Java's `int` and `long` as newtypes.
- `interval_indexer.dfy`: row-major index and position conversion.
- `sub_interval.dfy`: the box, its visit order, the filtered sum, and the
  test's helpers.
- `interval_cursor.dfy`: the localizing and the plain interval cursor.
- `cursor_test.dfy`: the test's two procedures.
- `complex_double_type.dfy`: the complex-double proxy.
- `localizable_cursor.dfy`: the older library's localizable cursor.
- `real_localizable.dfy`: the real-valued localizable.

Several things in the source are only interfaces, or classes this model does
not include. For those, the model gives a concrete counterpart:

- The concrete cursors behind `img.cursor(interval)` and
  `Views.interval(img, interval).localizingCursor()` are not part of this
  model. Two cursors stand in for them:
  - `LocalizingIntervalCursor` keeps a position and advances it
    odometer-style. It also carries the `next`/`jumpFwd`/`remove` protocol of
    `AbstractLocalizingCursorInt`.
  - `IntervalCursor` keeps only its element count and the data index of the
    current element. `fwd` and `jumpFwd` recompute that index from the count
    with running strides over the interval and over the image, and
    `localize` computes the position from the count the same way.
- The library's `IntervalIndexer` class is not among the modelled sources.
  The module `IntervalIndexer` here defines the `indexToPosition` that the
  test calls at line 194 of its source. It is row-major with axis 0 fastest: `pos[0] = idx % dims[0]`,
  and the rest comes from `idx / dims[0]`. The stride form
  `pos[d] = (idx / stride[d]) % dims[d]` is proved from it.

## Model

| member | source | states |
|---|---|---|
| `IntervalIndexer.IndexToPosition` | src/test/java/net/imglib2/img/AbstractSubIntervalIterableCursorTest.java:194 | the position of a linear index lies inside the image on every axis |
| `IntervalIndexer.PositionToIndexInRange` | src/test/java/net/imglib2/img/AbstractSubIntervalIterableCursorTest.java:194 | a position inside the image has a linear index inside the data array |
| `IntervalIndexer.IndexToPositionOfPositionToIndex` | src/test/java/net/imglib2/img/AbstractSubIntervalIterableCursorTest.java:194 | round trip: `indexToPosition(positionToIndex(p)) == p` for every in-image position |
| `IntervalIndexer.PositionToIndexOfIndexToPosition` | src/test/java/net/imglib2/img/AbstractSubIntervalIterableCursorTest.java:194 | round trip: `positionToIndex(indexToPosition(i)) == i` for every index of the data array |
| `IntervalIndexer.IndexToPositionInjective` | src/test/java/net/imglib2/img/AbstractSubIntervalIterableCursorTest.java:192-194 | distinct indices of the data array have distinct positions, so `getSum` sees each cell once |
| `IntervalIndexer.IndexToPositionStride` | src/test/java/net/imglib2/img/AbstractSubIntervalIterableCursorTest.java:194 | coordinate `d` of index `idx` is `(idx / stride[d]) % dims[d]`, with `stride[d]` the product of the lower extents |
| `IntervalIndexer.StrideNext` | src/test/java/net/imglib2/img/AbstractSubIntervalIterableCursorTest.java:194 | `stride[d + 1] == stride[d] * dims[d]` |
| `IntervalIndexer.PositionToIndexSnoc` | src/test/java/net/imglib2/img/AbstractSubIntervalIterableCursorTest.java:194 | appending an axis adds its coordinate times the product of the lower extents to the linear index |
| `IntervalIndexer.PositionToIndexPrefix` | src/test/java/net/imglib2/img/AbstractSubIntervalIterableCursorTest.java:194 | the linear index of the first `d + 1` axes is that of the first `d` plus coordinate `d` times `stride[d]`, and `stride[d + 1] == stride[d] * dims[d]` |
| `IntervalIndexer.IndexToPositionZero` | src/test/java/net/imglib2/img/AbstractSubIntervalIterableCursorTest.java:192-194 | index 0 is the origin |
| `IntervalIndexer.IndexToPositionLast` | src/test/java/net/imglib2/img/AbstractSubIntervalIterableCursorTest.java:192-194 | the last index of the data array is the far corner `dims - 1` |
| `IntervalIndexer.SuccNoCarry` | src/test/java/net/imglib2/img/AbstractSubIntervalIterableCursorTest.java:192-194 | when axis 0 is below its extent, the next index only advances axis 0 |
| `IntervalIndexer.SuccCarry` | src/test/java/net/imglib2/img/AbstractSubIntervalIterableCursorTest.java:192-194 | when axis 0 is at its extent, the next index sets axis 0 to 0 and carries into the higher axes |
| `IntervalIndexer.IndexToPositionSucc` | src/test/java/net/imglib2/img/AbstractSubIntervalIterableCursorTest.java:192-194 | moving to the next index is one odometer step on the position |
| `IntervalIndexer.IndexToPositionInto` | src/test/java/net/imglib2/img/AbstractSubIntervalIterableCursorTest.java:189-194 | refilling the reusable `pos` array by strides leaves exactly `indexToPosition(i)` in it |
| `SubInterval.Extents` | src/test/java/net/imglib2/img/AbstractSubIntervalIterableCursorTest.java:217-222 | every extent `max[d] - min[d] + 1` of a non-empty interval is positive |
| `SubInterval.GetIntervalSize` | src/test/java/net/imglib2/img/AbstractSubIntervalIterableCursorTest.java:215-225 | the result is the product over all axes of `max[d] - min[d] + 1` |
| `SubInterval.IsInside` | src/test/java/net/imglib2/img/AbstractSubIntervalIterableCursorTest.java:196-204 | the early-exit scan says yes exactly when `min[j] <= pos[j] <= max[j]` on every axis |
| `SubInterval.GetSum` | src/test/java/net/imglib2/img/AbstractSubIntervalIterableCursorTest.java:187-213 | the result is the sum of `intData[i]` over exactly the indices whose row-major position lies in the box |
| `SubInterval.FilteredSumIsSumAtInBox` | src/test/java/net/imglib2/img/AbstractSubIntervalIterableCursorTest.java:192-210 | that filtered sum is the sum over the in-box indices, listed in increasing order |
| `SubInterval.InBoxIndicesMembers` | src/test/java/net/imglib2/img/AbstractSubIntervalIterableCursorTest.java:192-206 | an index is among `getSum`'s summed indices exactly when it is below the bound and its position is in the box |
| `SubInterval.InBoxIndicesBelow` | src/test/java/net/imglib2/img/AbstractSubIntervalIterableCursorTest.java:192-206 | the indices `getSum` adds among the first `n` are all below `n` |
| `SubInterval.InBoxIndicesIncreasing` | src/test/java/net/imglib2/img/AbstractSubIntervalIterableCursorTest.java:192-206 | `getSum` adds each in-box index once, in increasing order |
| `SubInterval.VisitPosition` | src/test/java/net/imglib2/img/AbstractSubIntervalIterableCursorTest.java:156-162 | every position the cursor visits lies inside `[min, max]` |
| `SubInterval.VisitCoordinate` | src/test/java/net/imglib2/img/AbstractSubIntervalIterableCursorTest.java:156-160 | coordinate `d` of the `k`-th element is `min[d] + (k / stride[d]) % extent[d]`, with strides over the extents |
| `SubInterval.FirstVisitIsMin` | src/test/java/net/imglib2/img/AbstractSubIntervalIterableCursorTest.java:145-149 | the first element visited is at `min` |
| `SubInterval.LastVisitIsMax` | src/test/java/net/imglib2/img/AbstractSubIntervalIterableCursorTest.java:164-167 | the last element visited is at `max` |
| `SubInterval.VisitIsMaxOnlyAtLast` | src/test/java/net/imglib2/img/AbstractSubIntervalIterableCursorTest.java:156-167 | the cursor is at `max` exactly at its last element, in both directions |
| `SubInterval.CursorAtMaxOnlyAtLast` | src/test/java/net/imglib2/img/AbstractSubIntervalIterableCursorTest.java:151-167 | the same for the reset state too: the position equals `max` exactly when the last element is current |
| `SubInterval.IntervalSizeAtLeastAxis0` | src/test/java/net/imglib2/img/AbstractSubIntervalIterableCursorTest.java:53 | the interval has at least as many elements as its extent along axis 0 |
| `SubInterval.VisitAlongAxis0` | src/test/java/net/imglib2/img/AbstractSubIntervalIterableCursorTest.java:176-182 | the `k`-th element, for `k` below the axis-0 extent, is `min` moved `k` along axis 0 |
| `SubInterval.StepOffset` | src/test/java/net/imglib2/img/AbstractSubIntervalIterableCursorTest.java:156-159 | one odometer step on the box is one odometer step of the offset from `min` over the extents |
| `SubInterval.OffsetCons` | src/test/java/net/imglib2/img/AbstractSubIntervalIterableCursorTest.java:156-159 | shifting a position by `min` is axis 0 shifted, followed by the higher axes shifted |
| `SubInterval.StepCursorPosition` | src/test/java/net/imglib2/img/AbstractSubIntervalIterableCursorTest.java:156-159 | one `fwd` moves the cursor's position from element `k` to element `k + 1`, starting from the reset position |
| `SubInterval.StepsCursorPosition` | src/test/java/net/imglib2/img/AbstractSubIntervalIterableCursorTest.java:171-180 | `j` steps move the cursor's position from element `k` to element `k + j` |
| `SubInterval.StepsAdd` | src/main/java/net/imglib2/AbstractLocalizingCursorInt.java:72-77 | `a` steps then `b` steps are `a + b` steps |
| `SubInterval.Visits` | src/test/java/net/imglib2/img/AbstractSubIntervalIterableCursorTest.java:156-166 | the cursor visits exactly `getIntervalSize` data indices |
| `SubInterval.VisitInImage` | src/test/java/net/imglib2/img/AbstractSubIntervalIterableCursorTest.java:156-160 | every visited position lies inside the image |
| `SubInterval.OffsetInjective` | src/test/java/net/imglib2/img/AbstractSubIntervalIterableCursorTest.java:156-160 | two offsets that shift to the same position are equal |
| `SubInterval.VisitsInjective` | src/test/java/net/imglib2/img/AbstractSubIntervalIterableCursorTest.java:154-168 | different elements of the interval are different cells of the data array |
| `SubInterval.VisitsDistinct` | src/test/java/net/imglib2/img/AbstractSubIntervalIterableCursorTest.java:154-168 | the visited data indices are all different and all inside the data array |
| `SubInterval.VisitedIsInBox` | src/test/java/net/imglib2/img/AbstractSubIntervalIterableCursorTest.java:154-168 | every visited index is a cell whose row-major position is in the box |
| `SubInterval.InBoxIsVisited` | src/test/java/net/imglib2/img/AbstractSubIntervalIterableCursorTest.java:154-168 | every cell whose row-major position is in the box is visited |
| `SubInterval.VisitsMembers` | src/test/java/net/imglib2/img/AbstractSubIntervalIterableCursorTest.java:154-168 | an index is visited exactly when it is in the data array and its position is in the box |
| `SubInterval.DistinctMultiplicity` | src/test/java/net/imglib2/img/AbstractSubIntervalIterableCursorTest.java:154-168 | in a list without repeats each value occurs once or not at all |
| `SubInterval.VisitsAreInBoxCells` | src/test/java/net/imglib2/img/AbstractSubIntervalIterableCursorTest.java:154-168 | the visited indices are a permutation of the indices `getSum` adds |
| `SubInterval.IntervalSizeCountsInBoxCells` | src/test/java/net/imglib2/img/AbstractSubIntervalIterableCursorTest.java:166 | `getIntervalSize` equals the number of in-box cells of the image |
| `SubInterval.SumAtConcat` | src/test/java/net/imglib2/img/AbstractSubIntervalIterableCursorTest.java:154-160 | summing over two lists of indices is the sum of the two sums |
| `SubInterval.SumAtRemove` | src/test/java/net/imglib2/img/AbstractSubIntervalIterableCursorTest.java:154-160 | removing one index from a list takes exactly its value off the sum |
| `SubInterval.SumAtPrefix` | src/test/java/net/imglib2/img/AbstractSubIntervalIterableCursorTest.java:154-160 | the running sum over a prefix of indices grows by exactly the datum at the next index |
| `SubInterval.MultisetRemove` | src/test/java/net/imglib2/img/AbstractSubIntervalIterableCursorTest.java:154-168 | removing one shared element from two permutations of each other leaves permutations |
| `SubInterval.SumAtPermutation` | src/test/java/net/imglib2/img/AbstractSubIntervalIterableCursorTest.java:154-168 | the sum over a list of indices does not depend on their order |
| `SubInterval.CursorSumIsFilteredSum` | src/test/java/net/imglib2/img/AbstractSubIntervalIterableCursorTest.java:154-168 | the values at the visited indices sum to exactly `getSum(interval)` |
| `Cursors.Advance` | src/test/java/net/imglib2/img/AbstractSubIntervalIterableCursorTest.java:158 | the in-place odometer loop leaves the position at one `Step` from where it was |
| `Cursors.LocalizingIntervalCursor.constructor` | src/test/java/net/imglib2/img/AbstractSubIntervalIterableCursorTest.java:110 | a new cursor is reset, before its first element, with a fresh position array |
| `Cursors.LocalizingIntervalCursor.Reset` | src/test/java/net/imglib2/img/AbstractSubIntervalIterableCursorTest.java:151 | after `reset` the cursor is before its first element: at `min` moved one back on axis 0 |
| `Cursors.LocalizingIntervalCursor.HasNext` | src/test/java/net/imglib2/img/AbstractSubIntervalIterableCursorTest.java:156 | another element follows exactly when the position is not `max` |
| `Cursors.LocalizingIntervalCursor.Get` | src/test/java/net/imglib2/img/AbstractSubIntervalIterableCursorTest.java:160 | the value is the datum at the current element's data index |
| `Cursors.LocalizingIntervalCursor.Fwd` | src/test/java/net/imglib2/img/AbstractSubIntervalIterableCursorTest.java:158 | `fwd` takes one odometer step and moves on to the next element |
| `Cursors.LocalizingIntervalCursor.Next` | src/main/java/net/imglib2/AbstractLocalizingCursorInt.java:65-70 | `next` has the effect of `fwd` and returns what `get` returns afterwards |
| `Cursors.LocalizingIntervalCursor.JumpFwd` | src/main/java/net/imglib2/AbstractLocalizingCursorInt.java:72-77 | `jumpFwd(k)` is `k` odometer steps for `k > 0` and changes nothing for `k <= 0` |
| `Cursors.LocalizingIntervalCursor.Localize` | src/test/java/net/imglib2/img/AbstractSubIntervalIterableCursorTest.java:148 | the first `n` entries of the caller's array receive the position, and the rest are unchanged |
| `Cursors.LocalizingIntervalCursor.Remove` | src/main/java/net/imglib2/AbstractLocalizingCursorInt.java:59-63 | `remove` changes nothing |
| `Cursors.JumpFwdTwice` | src/main/java/net/imglib2/AbstractLocalizingCursorInt.java:72-77 | `jumpFwd(a)` then `jumpFwd(b)` leaves the cursor where `jumpFwd(a + b)` would |
| `Cursors.IntervalCursor.constructor` | src/test/java/net/imglib2/img/AbstractSubIntervalIterableCursorTest.java:74 | a new plain cursor is reset, before its first element |
| `Cursors.IntervalCursor.Reset` | src/test/java/net/imglib2/img/AbstractSubIntervalIterableCursorTest.java:151 | after `reset` no element has been visited |
| `Cursors.IntervalCursor.HasNext` | src/test/java/net/imglib2/img/AbstractSubIntervalIterableCursorTest.java:156 | another element follows exactly when the cursor's position is not `max`, although the cursor only compares its count |
| `Cursors.IntervalCursor.Get` | src/test/java/net/imglib2/img/AbstractSubIntervalIterableCursorTest.java:160 | reading the datum at the kept data index gives the value at the `count`-th visited index |
| `Cursors.IntervalCursor.Fwd` | src/test/java/net/imglib2/img/AbstractSubIntervalIterableCursorTest.java:158 | `fwd` moves on to the next element and keeps the data index equal to that element's visited index |
| `Cursors.IntervalCursor.JumpFwd` | src/test/java/net/imglib2/img/AbstractSubIntervalIterableCursorTest.java:179 | `jumpFwd(k)` moves `k` elements on for `k > 0`, and none otherwise, keeping the data index in step |
| `Cursors.IntervalCursor.Localize` | src/test/java/net/imglib2/img/AbstractSubIntervalIterableCursorTest.java:148 | the position computed by strides is the current element's position |
| `Cursors.VisitIndex` | src/test/java/net/imglib2/img/AbstractSubIntervalIterableCursorTest.java:156-160 | the data index computed axis by axis with two running strides is the `k`-th visited index |
| `Cursors.VisitPositionInto` | src/test/java/net/imglib2/img/AbstractSubIntervalIterableCursorTest.java:148 | the stride loop writes exactly the `k`-th element's position and leaves the rest of the array unchanged |
| `SubIntervalCursorTest.TestCursorIteration` | src/test/java/net/imglib2/img/AbstractSubIntervalIterableCursorTest.java:139-169 | on a localizing cursor over any interval inside the image, all four assertions hold: start at `min`, `getIntervalSize` steps, end at `max`, sum equals `getSum` |
| `SubIntervalCursorTest.Pass` | src/test/java/net/imglib2/img/AbstractSubIntervalIterableCursorTest.java:156-161 | one pass of the loop body (`fwd`, `localize`, `get`, add) moves to the next element, copies out its position, and adds its value to the running sum |
| `SubIntervalCursorTest.Walk` | src/test/java/net/imglib2/img/AbstractSubIntervalIterableCursorTest.java:151-162 | the `while (hasNext)` loop makes one pass per visit, ends at the last element, and sums the visited values |
| `SubIntervalCursorTest.TestPlainCursorIteration` | src/test/java/net/imglib2/img/AbstractSubIntervalIterableCursorTest.java:139-169 | the same four assertions hold on the plain cursor |
| `SubIntervalCursorTest.PlainPass` | src/test/java/net/imglib2/img/AbstractSubIntervalIterableCursorTest.java:156-161 | the same pass on the plain cursor |
| `SubIntervalCursorTest.PlainWalk` | src/test/java/net/imglib2/img/AbstractSubIntervalIterableCursorTest.java:151-162 | the same loop on the plain cursor |
| `SubIntervalCursorTest.TestCursorJumpFwd` | src/test/java/net/imglib2/img/AbstractSubIntervalIterableCursorTest.java:171-183 | on a localizing cursor whose interval is at least 18 wide on axis 0, `jumpFwd(18)` lands on `min` plus 17 on axis 0 |
| `SubIntervalCursorTest.TestPlainCursorJumpFwd` | src/test/java/net/imglib2/img/AbstractSubIntervalIterableCursorTest.java:171-183 | the same on the plain cursor |
| `ComplexDouble.PixelSlots` | src/main/java/net/imglib2/type/numeric/complex/ComplexDoubleType.java:189-190 | with 2 entities per pixel, pixel `k` owns entities `2k` and `2k+1`, and every slot belongs to exactly one pixel, `slot / 2` |
| `ComplexDouble.EntitiesPerPixel` | src/main/java/net/imglib2/type/numeric/complex/ComplexDoubleType.java:189-190 | the storage ratio is two entities per pixel |
| `ComplexDouble.SlotsDisjoint` | src/main/java/net/imglib2/type/numeric/complex/ComplexDoubleType.java:192-198 | a real slot is never an imaginary slot, and different pixels have different slots |
| `ComplexDouble.BindingAtIsCoherent` | src/main/java/net/imglib2/type/numeric/complex/ComplexDoubleType.java:192-198 | `updateIndex(k)` binds the counters to pixel `k`: `realI == 2k`, `imaginaryI == 2k+1` |
| `ComplexDouble.ShiftRebinds` | src/main/java/net/imglib2/type/numeric/complex/ComplexDoubleType.java:200-233 | moving a coherent handle by `n` either way keeps it coherent, bound to pixel `i ± n` exactly as `updateIndex(i ± n)` would bind it |
| `ComplexDouble.BackUndoesShift` | src/main/java/net/imglib2/type/numeric/complex/ComplexDoubleType.java:208-233 | `decIndex(n)` undoes `incIndex(n)` on all three counters, and the other way round |
| `ComplexDouble.ShiftAdd` | src/main/java/net/imglib2/type/numeric/complex/ComplexDoubleType.java:200-233 | two moves by `m` and `n` are one move by `m + n`, in either direction |
| `ComplexDouble.ComplexDoubleType.Variable` | src/main/java/net/imglib2/type/numeric/complex/ComplexDoubleType.java:69-74 | a variable owns a fresh 2-slot buffer holding `(r, i)`, bound to pixel 0 |
| `ComplexDouble.ComplexDoubleType.Zero` | src/main/java/net/imglib2/type/numeric/complex/ComplexDoubleType.java:84-87 | the no-argument variable owns a fresh 2-slot buffer holding `(0, 0)`, bound to pixel 0 |
| `ComplexDouble.ComplexDoubleType.Wrap` | src/main/java/net/imglib2/type/numeric/complex/ComplexDoubleType.java:76-81 | the handle uses the given buffer itself, bound to pixel 0 |
| `ComplexDouble.ComplexDoubleType.CreateVariable` | src/main/java/net/imglib2/type/numeric/complex/ComplexDoubleType.java:177-181 | `createVariable` returns a new variable holding `(0, 0)` |
| `ComplexDouble.ComplexDoubleType.GetIndex` | src/main/java/net/imglib2/type/numeric/complex/ComplexDoubleType.java:235-239 | the index returned is the pixel whose two slots the handle reads and writes |
| `ComplexDouble.ComplexDoubleType.GetRealDouble` | src/main/java/net/imglib2/type/numeric/complex/ComplexDoubleType.java:122-126 | the value read is the real slot `2*i` of the bound pixel |
| `ComplexDouble.ComplexDoubleType.GetImaginaryDouble` | src/main/java/net/imglib2/type/numeric/complex/ComplexDoubleType.java:134-138 | the value read is the imaginary slot `2*i+1` of the bound pixel |
| `ComplexDouble.ComplexDoubleType.UpdateIndex` | src/main/java/net/imglib2/type/numeric/complex/ComplexDoubleType.java:192-198 | afterwards `getIndex() == k`, `realI == 2k` and `imaginaryI == 2k+1` |
| `ComplexDouble.ComplexDoubleType.IncIndex` | src/main/java/net/imglib2/type/numeric/complex/ComplexDoubleType.java:200-206 | `i` advances by 1 and the slot indices by 2, keeping `realI == 2*i && imaginaryI == 2*i+1` |
| `ComplexDouble.ComplexDoubleType.IncIndexBy` | src/main/java/net/imglib2/type/numeric/complex/ComplexDoubleType.java:208-216 | `i` advances by `n` and the slot indices by `2n`, keeping the invariant |
| `ComplexDouble.ComplexDoubleType.DecIndex` | src/main/java/net/imglib2/type/numeric/complex/ComplexDoubleType.java:218-224 | `i` goes back by 1 and the slot indices by 2, keeping the invariant |
| `ComplexDouble.ComplexDoubleType.DecIndexBy` | src/main/java/net/imglib2/type/numeric/complex/ComplexDoubleType.java:226-233 | `i` goes back by `n` and the slot indices by `2n`, keeping the invariant |
| `ComplexDouble.ComplexDoubleType.SetReal` | src/main/java/net/imglib2/type/numeric/complex/ComplexDoubleType.java:146-150 | only slot `2*i` of the buffer changes; the imaginary part and every other slot keep their values |
| `ComplexDouble.ComplexDoubleType.SetImaginary` | src/main/java/net/imglib2/type/numeric/complex/ComplexDoubleType.java:158-162 | only slot `2*i+1` of the buffer changes; the real part and every other slot keep their values |
| `ComplexDouble.ComplexDoubleType.Set` | src/main/java/net/imglib2/type/numeric/complex/ComplexDoubleType.java:164-168 | afterwards the parts read back as `(r, i)`, and only slots `2*i` and `2*i+1` changed |
| `ComplexDouble.ComplexDoubleType.SetFrom` | src/main/java/net/imglib2/type/numeric/complex/ComplexDoubleType.java:170-175 | both parts become `c`'s original parts, even when `c` shares the buffer or is this handle, and `c`'s value is unchanged |
| `ComplexDouble.IncThenDec` | src/main/java/net/imglib2/type/numeric/complex/ComplexDoubleType.java:208-233 | `incIndex(n)` then `decIndex(n)` restores all three counters |
| `LocalizableCursor.AbstractLocalizableCursor.constructor` | mpicbg/imglib/cursor/AbstractLocalizableCursor.java:41-47 | a new cursor has a fresh all-zero position of length `numDimensions`, and the container's dimension vector |
| `LocalizableCursor.AbstractLocalizableCursor.GetIntPosition` | mpicbg/imglib/cursor/AbstractLocalizableCursor.java:83-84 | `getIntPosition(dim)` is `position[dim]` |
| `LocalizableCursor.AbstractLocalizableCursor.GetLongPosition` | mpicbg/imglib/cursor/AbstractLocalizableCursor.java:83-87 | `getLongPosition(d)` is the same number as `getIntPosition(d)`: `position[d]` |
| `LocalizableCursor.AbstractLocalizableCursor.LocalizeInt` | mpicbg/imglib/cursor/AbstractLocalizableCursor.java:63-68 | `out[d] == getIntPosition(d)` for `d < numDimensions`; the rest of `out` and the position are unchanged, even if `out` is the position array |
| `LocalizableCursor.AbstractLocalizableCursor.LocalizeLong` | mpicbg/imglib/cursor/AbstractLocalizableCursor.java:70-75 | `out[d]` is `getIntPosition(d)` widened, for `d < numDimensions`; the rest of `out` and the position are unchanged |
| `RealLocalizable.AbstractRealLocalizable.Fresh` | imglib2/core/src/main/java/net/imglib2/AbstractRealLocalizable.java:51-55 | `n` axes at the origin, in a fresh array |
| `RealLocalizable.AbstractRealLocalizable.Wrap` | imglib2/core/src/main/java/net/imglib2/AbstractRealLocalizable.java:64-68 | the position is the given array itself, and `n` is its length |
| `RealLocalizable.AbstractRealLocalizable.GetDoublePosition` | imglib2/core/src/main/java/net/imglib2/AbstractRealLocalizable.java:90-94 | `getDoublePosition(d)` is `position[d]` |
| `RealLocalizable.AbstractRealLocalizable.Localize` | imglib2/core/src/main/java/net/imglib2/AbstractRealLocalizable.java:77-82 | `pos[d] == getDoublePosition(d)` for `d < n`; the rest of `pos` and the position are unchanged, even if `pos` is the position array |
| `RealLocalizable.WrappedWriteIsVisible` | imglib2/core/src/main/java/net/imglib2/AbstractRealLocalizable.java:57-68 | after wrapping an array, a write to it is what `getDoublePosition` reports on that axis, and the other axes keep their values |

## Left out

- `ComplexDoubleType(NativeImg)`, `createSuitableNativeImg`, `updateContainer`, `duplicateTypeOnSameNativeImg` and the `img` field (ComplexDoubleType.java:57, 63-66, 89-114): they depend on `NativeImg` and its factory, which are not part of this model. A handle over an image's storage is modelled by `Wrap`, which takes the buffer directly.
- The `float` getters and setters, and `copy()`, of `ComplexDoubleType`. Also the `float[]`/`double[]` `localize` and `getFloatPosition`/`getDoublePosition` of the older localizable cursor, and the `float[]` `localize` and `getFloatPosition` of the real localizable. All of these are floating-point conversions. Stored values are `real` and never computed on.
- `getLocationAsString` and `toString` of the older localizable cursor: string formatting through `MathLib`, which is not part of this model.
- `copy()` and `copyCursor()` of `AbstractLocalizingCursorInt`: they are abstract there.
- `ComplexDouble.ComplexDoubleType.UpdateIndex`: requires the new counters to fit a Java `int` rather than modelling 32-bit wrap-around of `2 * index`.
- `ComplexDouble.ComplexDoubleType.IncIndex`, `IncIndexBy`, `DecIndex`, `DecIndexBy`: require the new counters to fit a Java `int` rather than modelling wrap-around. The intermediate `2 * increment` is computed without wrapping. Java's `int` arithmetic is modular, so when the final counters fit, the result is the same either way.
- `ComplexDouble.ComplexDoubleType.GetRealDouble`, `GetImaginaryDouble`, `SetReal`, `SetImaginary`, `Set`, `SetFrom`: require the two bound slots to lie inside the buffer. The out-of-bounds exception of the underlying access is not modelled.
- `LocalizableCursor.AbstractLocalizableCursor.LocalizeInt`, `LocalizeLong`, `RealLocalizable.AbstractRealLocalizable.Localize`, `Cursors.LocalizingIntervalCursor.Localize`, `Cursors.IntervalCursor.Localize`: require the caller's array to have at least `n` entries. The exception Java throws part way through the copy is not modelled.
- `LocalizableCursor.AbstractLocalizableCursor.constructor`: `numDimensions` and the container's dimension vector are parameters. `AbstractCursor`, `Container` and `Image` are not part of this model.
- The cursors that move the older localizable cursor's and the real localizable's positions are not part of this model. Those positions are only read here.
- `Cursors.LocalizingIntervalCursor.Fwd`, `Cursors.IntervalCursor.Fwd`: require `hasNext()`. The source leaves stepping past the last element unspecified.
- `Cursors.LocalizingIntervalCursor.JumpFwd`, `Cursors.IntervalCursor.JumpFwd`: require the jump to stay within the interval, for the same reason.
- `SubInterval.GetSum`, `SubInterval.GetIntervalSize`: the `long` accumulators are unbounded integers, so `long` overflow is not modelled. `GetIntervalSize` requires at least one axis, which `interval.dimension(0)` needs.
- `SubInterval.GetSum`, the cursors and the test procedures: require every image dimension to be positive. The cursors and the test procedures also require the interval to be non-empty (`min <= max` on every axis) and to lie inside the image. The test's images and intervals come from subclasses that are not part of this model.
- `SubIntervalCursorTest.TestCursorJumpFwd`, `TestPlainCursorJumpFwd`: require the interval, not only the image, to be at least 18 wide on axis 0. The test's landing position holds only then, and the test's fixtures are meant to provide it.
- The test's `@Test` entry points and their intervals (`intervalFast`, `intervalShifted`) are subclass fixtures. Each test procedure is modelled once per cursor kind, for every interval at once.
- `Cursors.Advance`: this is the model's own odometer. It stands in for the `fwd` of the concrete cursors, which are not part of this model. `Cursors.VisitIndex` and `Cursors.VisitPositionInto` are likewise the model's own stride loops for the plain cursor.
- `SubInterval.IsInside` and `SubIntervalCursorTest.Pass` (and `PlainPass`) are extracted from code that the source writes inline: the inner scan of `getSum`, and the loop body of the test's iteration. Their statements run in the same order as the inline originals.
