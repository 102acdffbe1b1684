/**
 * Iteration over a sub-interval of a flat, row-major image: which positions a
 * cursor restricted to the inclusive box `[min, max]` visits and in which
 * order, and the two helpers of the sub-interval cursor test that say what a
 * correct cursor must produce (the interval's element count and the sum of the
 * image data inside the box).
 */
module SubInterval {
  import opened IntervalIndexer

  /** An inclusive interval: `min[d] <= max[d]` on every axis. */
  predicate IsInterval(min: seq<int>, max: seq<int>)
  {
    |min| == |max| && forall d :: 0 <= d < |min| ==> min[d] <= max[d]
  }

  /** The interval lies inside an image with dimensions `dims`. */
  predicate Contains(dims: seq<int>, min: seq<int>, max: seq<int>)
  {
    IsInterval(min, max) && |dims| == |min| &&
    forall d :: 0 <= d < |dims| ==> 0 <= min[d] && max[d] < dims[d]
  }

  /** `pos` lies inside the box on every axis. */
  predicate InBox(pos: seq<int>, min: seq<int>, max: seq<int>)
  {
    |pos| == |min| == |max| && forall d :: 0 <= d < |pos| ==> min[d] <= pos[d] <= max[d]
  }

  /** The interval's size along every axis, `max[d] - min[d] + 1`. */
  function Extents(min: seq<int>, max: seq<int>): (e: seq<int>)
    requires |min| == |max|
    ensures |e| == |min|
    ensures IsInterval(min, max) ==> Positive(e)
  {
    seq(|min|, d requires 0 <= d < |min| => max[d] - min[d] + 1)
  }

  /** The number of elements of the interval. */
  function IntervalSize(min: seq<int>, max: seq<int>): int
    requires |min| == |max|
  {
    Product(Extents(min, max))
  }

  /** Local coordinates `q` moved to the interval's origin `min`. */
  function Offset(min: seq<int>, q: seq<int>): (p: seq<int>)
    requires |q| == |min|
    ensures |p| == |min|
  {
    seq(|min|, d requires 0 <= d < |min| => min[d] + q[d])
  }

  /** The position a cursor over the interval holds at its `k`-th element (from 0). */
  function VisitPosition(min: seq<int>, max: seq<int>, k: nat): (p: seq<int>)
    requires IsInterval(min, max)
    ensures InBox(p, min, max)
  {
    Offset(min, IndexToPosition(k, Extents(min, max)))
  }

  /** The position of a reset cursor: `min`, one step back on axis 0. */
  function BeforeFirst(min: seq<int>): seq<int>
    requires |min| > 0
  {
    min[0 := min[0] - 1]
  }

  /**
   * The position after `count + 1` forward steps from a reset cursor
   * (`count == -1` is the reset state itself).
   */
  function CursorPosition(min: seq<int>, max: seq<int>, count: int): (p: seq<int>)
    requires IsInterval(min, max) && |min| > 0 && count >= -1
    ensures |p| == |min|
  {
    if count < 0 then BeforeFirst(min) else VisitPosition(min, max, count)
  }

  /**
   * One forward step of a localizing cursor: axis 0 advances; an axis that
   * passes `max` returns to `min` and carries into the next axis.
   */
  function Step(pos: seq<int>, min: seq<int>, max: seq<int>): (next: seq<int>)
    requires |pos| == |min| == |max|
    ensures |next| == |pos|
  {
    if |pos| == 0 then []
    else if pos[0] + 1 <= max[0] then [pos[0] + 1] + pos[1..]
    else [min[0]] + Step(pos[1..], min[1..], max[1..])
  }

  /** One step on the axes from `d` up: axis `d` advances, or returns to `min[d]` and carries. */
  lemma StepSuffix(pos: seq<int>, min: seq<int>, max: seq<int>, d: nat)
    requires |pos| == |min| == |max| && d < |pos|
    ensures Step(pos[d..], min[d..], max[d..]) ==
            if pos[d] + 1 <= max[d] then [pos[d] + 1] + pos[d + 1..]
            else [min[d]] + Step(pos[d + 1..], min[d + 1..], max[d + 1..])
  {
    assert pos[d..][1..] == pos[d + 1..];
    assert min[d..][1..] == min[d + 1..] && max[d..][1..] == max[d + 1..];
  }

  /** While the axes below `d` all pass `max`, they return to `min` and the step carries on at `d`. */
  lemma {:induction false} StepCarries(pos: seq<int>, min: seq<int>, max: seq<int>, d: nat)
    requires |pos| == |min| == |max| && d <= |pos|
    requires forall k :: 0 <= k < d ==> pos[k] + 1 > max[k]
    ensures Step(pos, min, max) == min[..d] + Step(pos[d..], min[d..], max[d..])
  {
    if d > 0 {
      StepCarries(pos[1..], min[1..], max[1..], d - 1);
      assert pos[1..][d - 1..] == pos[d..];
      assert min[1..][d - 1..] == min[d..] && max[1..][d - 1..] == max[d..];
      assert min[..d] == [min[0]] + min[1..][..d - 1];
    }
  }

  /** `j` forward steps in succession. */
  function Steps(pos: seq<int>, min: seq<int>, max: seq<int>, j: nat): (next: seq<int>)
    requires |pos| == |min| == |max|
    ensures |next| == |pos|
  {
    if j == 0 then pos else Step(Steps(pos, min, max, j - 1), min, max)
  }

  /** The linear indices into the image data that a cursor over the interval visits, in order. */
  function Visits(dims: seq<int>, min: seq<int>, max: seq<int>): (v: seq<int>)
    requires Contains(dims, min, max)
    ensures |v| == IntervalSize(min, max)
  {
    seq(IntervalSize(min, max), k requires 0 <= k < IntervalSize(min, max) =>
      PositionToIndex(VisitPosition(min, max, k), dims))
  }

  /** The linear indices below `n` whose row-major position lies in the box, in increasing order. */
  function InBoxIndices(dims: seq<int>, min: seq<int>, max: seq<int>, n: nat): seq<int>
    requires Positive(dims)
  {
    if n == 0 then []
    else InBoxIndices(dims, min, max, n - 1) +
         (if InBox(IndexToPosition(n - 1, dims), min, max) then [n - 1] else [])
  }

  /** The sum of `data[i]` over the `i < n` whose row-major position lies in the box. */
  function FilteredSum(data: seq<int>, dims: seq<int>, min: seq<int>, max: seq<int>, n: nat): int
    requires Positive(dims) && n <= |data|
  {
    if n == 0 then 0
    else FilteredSum(data, dims, min, max, n - 1) +
         (if InBox(IndexToPosition(n - 1, dims), min, max) then data[n - 1] else 0)
  }

  /** Every index of `idxs` addresses an element of a buffer of length `len`. */
  predicate IndicesIn(idxs: seq<int>, len: int)
  {
    forall i :: 0 <= i < |idxs| ==> 0 <= idxs[i] < len
  }

  /** The sum of the data at the given indices. */
  function SumAt(data: seq<int>, idxs: seq<int>): int
    requires IndicesIn(idxs, |data|)
  {
    if |idxs| == 0 then 0 else SumAt(data, idxs[..|idxs| - 1]) + data[idxs[|idxs| - 1]]
  }

  predicate Distinct(s: seq<int>)
  {
    forall i, j :: 0 <= i < j < |s| ==> s[i] != s[j]
  }

  // ---------------------------------------------------------------------------
  // The visiting order

  /** The first element of the interval is `min`. */
  lemma FirstVisitIsMin(min: seq<int>, max: seq<int>)
    requires IsInterval(min, max)
    ensures VisitPosition(min, max, 0) == min
  {
    IndexToPositionZero(Extents(min, max));
  }

  /** The last element of the interval is `max`. */
  lemma LastVisitIsMax(min: seq<int>, max: seq<int>)
    requires IsInterval(min, max)
    ensures VisitPosition(min, max, IntervalSize(min, max) - 1) == max
  {
    IndexToPositionLast(Extents(min, max));
  }

  /** Only the last element of the interval is at `max`. */
  lemma VisitIsMaxOnlyAtLast(min: seq<int>, max: seq<int>, k: nat)
    requires IsInterval(min, max) && k < IntervalSize(min, max)
    ensures VisitPosition(min, max, k) == max <==> k == IntervalSize(min, max) - 1
  {
    var e := Extents(min, max);
    var last := IntervalSize(min, max) - 1;
    LastVisitIsMax(min, max);
    if VisitPosition(min, max, k) == max {
      OffsetInjective(min, IndexToPosition(k, e), IndexToPosition(last, e));
      IndexToPositionInjective(k, last, e);
    }
  }

  /** A cursor, reset or not, is at `max` exactly when it is at the last element. */
  lemma CursorAtMaxOnlyAtLast(min: seq<int>, max: seq<int>, count: int)
    requires IsInterval(min, max) && |min| > 0 && -1 <= count < IntervalSize(min, max)
    ensures CursorPosition(min, max, count) == max <==> count == IntervalSize(min, max) - 1
  {
    if count >= 0 {
      VisitIsMaxOnlyAtLast(min, max, count);
    } else {
      assert BeforeFirst(min)[0] != max[0];
    }
  }

  /** The interval has at least as many elements as its extent along axis 0. */
  lemma IntervalSizeAtLeastAxis0(min: seq<int>, max: seq<int>)
    requires IsInterval(min, max) && |min| > 0
    ensures IntervalSize(min, max) >= max[0] - min[0] + 1
  {
    var e := Extents(min, max);
    assert Positive(e[1..]);
    MulLe(e[0], 1, Product(e[1..]));
  }

  /** While `k` stays below the axis-0 extent, the `k`-th element is `min` moved `k` along axis 0. */
  lemma VisitAlongAxis0(min: seq<int>, max: seq<int>, k: nat)
    requires IsInterval(min, max) && |min| > 0 && k < max[0] - min[0] + 1
    ensures VisitPosition(min, max, k) == min[0 := min[0] + k]
  {
    var e := Extents(min, max);
    DivModUnique(k, e[0], 0, k);
    IndexToPositionZero(e[1..]);
    assert IndexToPosition(k, e) == [k] + Zeros(|e| - 1);
  }

  /** The odometer on absolute coordinates is the odometer on local coordinates, shifted by `min`. */
  lemma {:induction false} StepOffset(q: seq<int>, min: seq<int>, max: seq<int>)
    requires IsInterval(min, max) && InBounds(q, Extents(min, max))
    ensures Step(Offset(min, q), min, max) == Offset(min, Increment(q, Extents(min, max)))
  {
    if |min| > 0 {
      var e := Extents(min, max);
      var p := Offset(min, q);
      OffsetCons(min, q);
      if q[0] + 1 < e[0] {
        assert Increment(q, e) == [q[0] + 1] + q[1..];
        assert Step(p, min, max) == [p[0] + 1] + p[1..];
        OffsetCons(min, Increment(q, e));
      } else {
        var inc := Increment(q[1..], e[1..]);
        assert Increment(q, e) == [0] + inc;
        assert Step(p, min, max) == [min[0]] + Step(p[1..], min[1..], max[1..]);
        assert e[1..] == Extents(min[1..], max[1..]);
        StepOffset(q[1..], min[1..], max[1..]);
        OffsetCons(min, [0] + inc);
        assert ([0] + inc)[1..] == inc;
      }
    }
  }

  /** Coordinate `d` of the `k`-th element, by strides over the extents. */
  lemma VisitCoordinate(min: seq<int>, max: seq<int>, k: nat, d: nat)
    requires IsInterval(min, max) && d < |min|
    ensures Stride(Extents(min, max), d) > 0
    ensures VisitPosition(min, max, k)[d] == min[d] + (k / Stride(Extents(min, max), d)) % (max[d] - min[d] + 1)
  {
    IndexToPositionStride(k, Extents(min, max), d);
  }

  /** Shifting by `min` works axis by axis: axis 0 first, then the rest. */
  lemma OffsetCons(min: seq<int>, q: seq<int>)
    requires |q| == |min| > 0
    ensures Offset(min, q) == [min[0] + q[0]] + Offset(min[1..], q[1..])
  {
  }

  /** One forward step takes the cursor from its `count`-th element to the next. */
  lemma StepCursorPosition(min: seq<int>, max: seq<int>, count: int)
    requires IsInterval(min, max) && |min| > 0 && count >= -1
    ensures Step(CursorPosition(min, max, count), min, max) == CursorPosition(min, max, count + 1)
  {
    if count < 0 {
      FirstVisitIsMin(min, max);
      assert [min[0]] + min[1..] == min;
    } else {
      var e := Extents(min, max);
      IndexToPositionSucc(count, e);
      StepOffset(IndexToPosition(count, e), min, max);
    }
  }

  /** `j` forward steps take the cursor from its `count`-th element to its `(count + j)`-th. */
  lemma {:induction false} StepsCursorPosition(min: seq<int>, max: seq<int>, count: int, j: nat)
    requires IsInterval(min, max) && |min| > 0 && count >= -1
    ensures Steps(CursorPosition(min, max, count), min, max, j) == CursorPosition(min, max, count + j)
  {
    if j > 0 {
      var start := CursorPosition(min, max, count);
      var before := Steps(start, min, max, j - 1);
      assert Steps(start, min, max, j) == Step(before, min, max);
      StepsCursorPosition(min, max, count, j - 1);
      assert before == CursorPosition(min, max, count + j - 1);
      StepCursorPosition(min, max, count + j - 1);
    }
  }

  /** Jumping `a` and then `b` steps is jumping `a + b` steps. */
  lemma {:induction false} StepsAdd(pos: seq<int>, min: seq<int>, max: seq<int>, a: nat, b: nat)
    requires |pos| == |min| == |max|
    ensures Steps(Steps(pos, min, max, a), min, max, b) == Steps(pos, min, max, a + b)
  {
    if b > 0 {
      StepsAdd(pos, min, max, a, b - 1);
    }
  }

  // ---------------------------------------------------------------------------
  // Exactly the cells inside the box

  lemma VisitInImage(dims: seq<int>, min: seq<int>, max: seq<int>, k: nat)
    requires Contains(dims, min, max)
    ensures InBounds(VisitPosition(min, max, k), dims)
  {
  }

  lemma {:induction false} InBoxIndicesMembers(dims: seq<int>, min: seq<int>, max: seq<int>, n: nat, x: int)
    requires Positive(dims)
    ensures x in InBoxIndices(dims, min, max, n) <==>
            0 <= x < n && InBox(IndexToPosition(x, dims), min, max)
  {
    if n > 0 {
      var prev, last := InBoxIndices(dims, min, max, n - 1), n - 1;
      var lastIn := InBox(IndexToPosition(last, dims), min, max);
      InBoxIndicesMembers(dims, min, max, last, x);
      assert InBoxIndices(dims, min, max, n) == prev + (if lastIn then [last] else []);
      if x == last {
        assert x !in prev;
        assert x in InBoxIndices(dims, min, max, n) <==> lastIn;
      } else {
        assert x in InBoxIndices(dims, min, max, n) <==> x in prev;
      }
    }
  }

  /** The indices `getSum` adds among the first `n` are all below `n`. */
  lemma {:induction false} InBoxIndicesBelow(dims: seq<int>, min: seq<int>, max: seq<int>, n: nat)
    requires Positive(dims)
    ensures IndicesIn(InBoxIndices(dims, min, max, n), n)
  {
    if n > 0 {
      InBoxIndicesBelow(dims, min, max, n - 1);
    }
  }

  /** The indices `getSum` adds come in strictly increasing order. */
  lemma {:induction false} InBoxIndicesIncreasing(dims: seq<int>, min: seq<int>, max: seq<int>, n: nat)
    requires Positive(dims)
    ensures forall i, j :: 0 <= i < j < |InBoxIndices(dims, min, max, n)| ==>
              InBoxIndices(dims, min, max, n)[i] < InBoxIndices(dims, min, max, n)[j]
  {
    if n > 0 {
      InBoxIndicesBelow(dims, min, max, n - 1);
      InBoxIndicesIncreasing(dims, min, max, n - 1);
    }
  }

  /** Shifting by `min` loses nothing. */
  lemma OffsetInjective(min: seq<int>, a: seq<int>, b: seq<int>)
    requires |a| == |b| == |min| && Offset(min, a) == Offset(min, b)
    ensures a == b
  {
    forall d | 0 <= d < |min|
      ensures a[d] == b[d]
    {
      assert Offset(min, a)[d] == Offset(min, b)[d];
    }
  }

  /** Different elements of the interval are different cells of the image. */
  lemma VisitsInjective(dims: seq<int>, min: seq<int>, max: seq<int>, i: nat, j: nat)
    requires Contains(dims, min, max) && Positive(dims)
    requires i < IntervalSize(min, max) && j < IntervalSize(min, max) && i != j
    ensures PositionToIndex(VisitPosition(min, max, i), dims) != PositionToIndex(VisitPosition(min, max, j), dims)
  {
    var e := Extents(min, max);
    var pi, pj := VisitPosition(min, max, i), VisitPosition(min, max, j);
    IndexToPositionOfPositionToIndex(pi, dims);
    IndexToPositionOfPositionToIndex(pj, dims);
    if PositionToIndex(pi, dims) == PositionToIndex(pj, dims) {
      assert pi == pj;
      OffsetInjective(min, IndexToPosition(i, e), IndexToPosition(j, e));
      IndexToPositionInjective(i, j, e);
    }
  }

  /** No linear index is visited twice. */
  lemma VisitsDistinct(dims: seq<int>, min: seq<int>, max: seq<int>)
    requires Contains(dims, min, max) && Positive(dims)
    ensures Distinct(Visits(dims, min, max))
    ensures IndicesIn(Visits(dims, min, max), Product(dims))
  {
    var v := Visits(dims, min, max);
    forall k | 0 <= k < |v|
      ensures 0 <= v[k] < Product(dims)
    {
      PositionToIndexInRange(VisitPosition(min, max, k), dims);
    }
    forall i, j | 0 <= i < j < |v|
      ensures v[i] != v[j]
    {
      VisitsInjective(dims, min, max, i, j);
    }
  }

  /** Every visited linear index is an image cell inside the box. */
  lemma VisitedIsInBox(dims: seq<int>, min: seq<int>, max: seq<int>, k: nat)
    requires Contains(dims, min, max) && Positive(dims) && k < IntervalSize(min, max)
    ensures 0 <= Visits(dims, min, max)[k] < Product(dims)
    ensures InBox(IndexToPosition(Visits(dims, min, max)[k], dims), min, max)
  {
    PositionToIndexInRange(VisitPosition(min, max, k), dims);
    IndexToPositionOfPositionToIndex(VisitPosition(min, max, k), dims);
  }

  /** Every image cell inside the box is visited. */
  lemma InBoxIsVisited(dims: seq<int>, min: seq<int>, max: seq<int>, x: nat)
    requires Contains(dims, min, max) && Positive(dims)
    requires x < Product(dims) && InBox(IndexToPosition(x, dims), min, max)
    ensures x in Visits(dims, min, max)
  {
    var e := Extents(min, max);
    var p := IndexToPosition(x, dims);
    var q := seq(|min|, d requires 0 <= d < |min| => p[d] - min[d]);
    assert InBounds(q, e);
    var k := PositionToIndex(q, e);
    PositionToIndexInRange(q, e);
    IndexToPositionOfPositionToIndex(q, e);
    assert Offset(min, q) == p;
    PositionToIndexOfIndexToPosition(x, dims);
    assert Visits(dims, min, max)[k] == x;
  }

  /** A linear index is visited exactly when its row-major position lies in the box. */
  lemma VisitsMembers(dims: seq<int>, min: seq<int>, max: seq<int>, x: int)
    requires Contains(dims, min, max) && Positive(dims)
    ensures x in Visits(dims, min, max) <==>
            0 <= x < Product(dims) && InBox(IndexToPosition(x, dims), min, max)
  {
    var v := Visits(dims, min, max);
    if x in v {
      var k :| 0 <= k < |v| && v[k] == x;
      VisitedIsInBox(dims, min, max, k);
    }
    if 0 <= x < Product(dims) && InBox(IndexToPosition(x, dims), min, max) {
      InBoxIsVisited(dims, min, max, x);
    }
  }

  /** In a sequence without repetitions every member occurs once. */
  lemma {:induction false} DistinctMultiplicity(s: seq<int>, x: int)
    requires Distinct(s)
    ensures multiset(s)[x] == if x in s then 1 else 0
  {
    if |s| > 0 {
      var init := s[..|s| - 1];
      assert s == init + [s[|s| - 1]];
      DistinctMultiplicity(init, x);
    }
  }

  /**
   * The cursor visits every cell inside the box exactly once and nothing
   * outside it: its visits are a permutation of the in-box linear indices.
   */
  lemma VisitsAreInBoxCells(dims: seq<int>, min: seq<int>, max: seq<int>)
    requires Contains(dims, min, max) && Positive(dims)
    ensures multiset(Visits(dims, min, max)) == multiset(InBoxIndices(dims, min, max, Product(dims)))
  {
    var v := Visits(dims, min, max);
    var b := InBoxIndices(dims, min, max, Product(dims));
    VisitsDistinct(dims, min, max);
    InBoxIndicesBelow(dims, min, max, Product(dims));
    InBoxIndicesIncreasing(dims, min, max, Product(dims));
    forall x
      ensures multiset(v)[x] == multiset(b)[x]
    {
      VisitsMembers(dims, min, max, x);
      InBoxIndicesMembers(dims, min, max, Product(dims), x);
      DistinctMultiplicity(v, x);
      DistinctMultiplicity(b, x);
    }
  }

  /** The interval's size is the number of image cells inside the box. */
  lemma IntervalSizeCountsInBoxCells(dims: seq<int>, min: seq<int>, max: seq<int>)
    requires Contains(dims, min, max) && Positive(dims)
    ensures |InBoxIndices(dims, min, max, Product(dims))| == IntervalSize(min, max)
  {
    VisitsAreInBoxCells(dims, min, max);
    assert |multiset(Visits(dims, min, max))| == |multiset(InBoxIndices(dims, min, max, Product(dims)))|;
  }

  lemma {:induction false} SumAtConcat(data: seq<int>, a: seq<int>, b: seq<int>)
    requires IndicesIn(a, |data|) && IndicesIn(b, |data|)
    ensures IndicesIn(a + b, |data|)
    ensures SumAt(data, a + b) == SumAt(data, a) + SumAt(data, b)
  {
    if |b| > 0 {
      var init := b[..|b| - 1];
      assert (a + b)[..|a + b| - 1] == a + init;
      SumAtConcat(data, a, init);
    } else {
      assert a + b == a;
    }
  }

  /** The running sum over a prefix of indices grows by the datum at the next index. */
  lemma SumAtPrefix(data: seq<int>, s: seq<int>, k: nat)
    requires IndicesIn(s, |data|) && k < |s|
    ensures IndicesIn(s[..k], |data|) && IndicesIn(s[..k + 1], |data|)
    ensures SumAt(data, s[..k + 1]) == SumAt(data, s[..k]) + data[s[k]]
  {
    assert s[..k + 1][..k] == s[..k];
  }

  /** Taking the index at position `j` out of a sequence takes its datum out of the sum. */
  lemma SumAtRemove(data: seq<int>, b: seq<int>, j: nat)
    requires IndicesIn(b, |data|) && j < |b|
    ensures IndicesIn(b[..j] + b[j + 1..], |data|)
    ensures SumAt(data, b) == SumAt(data, b[..j] + b[j + 1..]) + data[b[j]]
  {
    assert b == (b[..j] + [b[j]]) + b[j + 1..];
    SumAtConcat(data, b[..j], [b[j]]);
    SumAtConcat(data, b[..j] + [b[j]], b[j + 1..]);
    SumAtConcat(data, b[..j], b[j + 1..]);
  }

  lemma MultisetRemove(a: seq<int>, b: seq<int>, j: nat)
    requires |a| > 0 && j < |b| && b[j] == a[|a| - 1] && multiset(a) == multiset(b)
    ensures multiset(a[..|a| - 1]) == multiset(b[..j] + b[j + 1..])
  {
    var x := a[|a| - 1];
    assert a == a[..|a| - 1] + [x];
    assert b == b[..j] + [x] + b[j + 1..];
    var left, right := multiset(a[..|a| - 1]), multiset(b[..j] + b[j + 1..]);
    assert left + multiset{x} == right + multiset{x};
    forall y
      ensures left[y] == right[y]
    {
      assert (left + multiset{x})[y] == (right + multiset{x})[y];
    }
  }

  /** The sum over a sequence of indices does not depend on their order. */
  lemma {:induction false} SumAtPermutation(data: seq<int>, a: seq<int>, b: seq<int>)
    requires IndicesIn(a, |data|) && IndicesIn(b, |data|) && multiset(a) == multiset(b)
    ensures SumAt(data, a) == SumAt(data, b)
    decreases |a|
  {
    if |a| == 0 {
      assert |multiset(b)| == 0;
    } else {
      var x := a[|a| - 1];
      assert x in multiset(b);
      var j :| 0 <= j < |b| && b[j] == x;
      MultisetRemove(a, b, j);
      SumAtRemove(data, b, j);
      SumAtPermutation(data, a[..|a| - 1], b[..j] + b[j + 1..]);
    }
  }

  lemma {:induction false} FilteredSumIsSumAtInBox(data: seq<int>, dims: seq<int>, min: seq<int>, max: seq<int>, n: nat)
    requires Positive(dims) && n <= |data|
    ensures IndicesIn(InBoxIndices(dims, min, max, n), |data|)
    ensures SumAt(data, InBoxIndices(dims, min, max, n)) == FilteredSum(data, dims, min, max, n)
  {
    InBoxIndicesBelow(dims, min, max, n);
    if n > 0 {
      var prev := InBoxIndices(dims, min, max, n - 1);
      FilteredSumIsSumAtInBox(data, dims, min, max, n - 1);
      if InBox(IndexToPosition(n - 1, dims), min, max) {
        assert InBoxIndices(dims, min, max, n) == prev + [n - 1];
        assert (prev + [n - 1])[..|prev|] == prev;
      } else {
        assert InBoxIndices(dims, min, max, n) == prev;
      }
    }
  }

  /**
   * Summing the image data along the cursor's visits gives the test's
   * reference sum over the in-box cells.
   */
  lemma CursorSumIsFilteredSum(data: seq<int>, dims: seq<int>, min: seq<int>, max: seq<int>)
    requires Contains(dims, min, max) && Positive(dims) && |data| == Product(dims)
    ensures IndicesIn(Visits(dims, min, max), |data|)
    ensures SumAt(data, Visits(dims, min, max)) == FilteredSum(data, dims, min, max, |data|)
  {
    VisitsDistinct(dims, min, max);
    VisitsAreInBoxCells(dims, min, max);
    FilteredSumIsSumAtInBox(data, dims, min, max, |data|);
    SumAtPermutation(data, Visits(dims, min, max), InBoxIndices(dims, min, max, |data|));
  }

  // ---------------------------------------------------------------------------
  // The test's helpers

  /** The product of the interval's extents, accumulated axis by axis. */
  method GetIntervalSize(min: seq<int>, max: seq<int>) returns (size: int)
    requires |min| == |max| && |min| > 0
    ensures size == IntervalSize(min, max)
  {
    var e := Extents(min, max);
    size := max[0] - min[0] + 1;
    assert e[..1] == [e[0]];
    for i := 1 to |min|
      invariant size == Product(e[..i])
    {
      ProductSnoc(e[..i], e[i]);
      assert e[..i + 1] == e[..i] + [e[i]];
      size := size * (max[i] - min[i] + 1);
    }
    assert e[..|min|] == e;
  }

  /** The test's per-element check: `pos` lies between `min` and `max` on every axis. */
  method IsInside(pos: array<int>, min: seq<int>, max: seq<int>) returns (inside: bool)
    requires pos.Length == |min| == |max|
    ensures inside == InBox(pos[..], min, max)
  {
    inside := true;
    var j := 0;
    while j < pos.Length
      invariant 0 <= j <= pos.Length
      invariant inside ==> forall k :: 0 <= k < j ==> min[k] <= pos[k] <= max[k]
      invariant !inside ==> !InBox(pos[..], min, max)
    {
      if pos[j] < min[j] || pos[j] > max[j] {
        inside := false;
        break;
      }
      j := j + 1;
    }
  }

  /**
   * The sum of the image data over every linear index whose row-major
   * position lies in the box, with one reusable position array.
   */
  method GetSum(data: array<int>, dims: seq<int>, min: seq<int>, max: seq<int>) returns (sum: int)
    requires Positive(dims) && |dims| == |min| == |max|
    ensures sum == FilteredSum(data[..], dims, min, max, data.Length)
  {
    ghost var values := data[..];
    var pos := new int[|dims|];
    sum := 0;
    for i := 0 to data.Length
      invariant data[..] == values
      invariant sum == FilteredSum(values, dims, min, max, i)
    {
      IndexToPositionInto(i, dims, pos);
      var inside := IsInside(pos, min, max);
      assert FilteredSum(values, dims, min, max, i + 1) ==
             FilteredSum(values, dims, min, max, i) + (if inside then values[i] else 0);
      if inside {
        sum := sum + data[i];
      }
    }
  }
}
