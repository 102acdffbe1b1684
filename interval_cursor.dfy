/**
 * Cursors over the inclusive sub-interval `[min, max]` of a flat, row-major
 * image whose data is an `int` array. A cursor starts reset, before its first
 * element; `Fwd` moves it to the next element in row-major order (axis 0
 * fastest); `HasNext` says whether another element follows.
 *
 * `LocalizingIntervalCursor` keeps its position in an `int` array and advances
 * it odometer-style, and carries the stepping protocol every localizing cursor
 * shares: `Next` is `Fwd` then `Get`, `JumpFwd(k)` is `k` calls of `Fwd`, and
 * `Remove` does nothing. `IntervalCursor` keeps only how many elements it has
 * visited and the data index of the current one, and computes its position on
 * demand.
 */
module Cursors {
  import opened IntervalIndexer
  import opened SubInterval

  /** The shape of a cursor over an interval of a flat image. */
  predicate Shape(dims: seq<int>, min: seq<int>, max: seq<int>, dataLength: int)
  {
    |dims| > 0 && Positive(dims) && Contains(dims, min, max) && dataLength == Product(dims)
  }

  /**
   * The data index of the interval's `k`-th element, computed axis by axis:
   * each coordinate comes from `k` with a running stride over the extents and
   * is weighted by a running stride over the image.
   */
  method VisitIndex(dims: seq<int>, min: seq<int>, max: seq<int>, k: nat) returns (index: int)
    requires Contains(dims, min, max) && k < IntervalSize(min, max)
    ensures index == Visits(dims, min, max)[k]
  {
    var e := Extents(min, max);
    ghost var p := VisitPosition(min, max, k);
    var stride, imageStride := 1, 1;
    index := 0;
    for d := 0 to |dims|
      invariant stride == Stride(e, d) && stride > 0
      invariant imageStride == Stride(dims, d)
      invariant index == PositionToIndex(p[..d], dims[..d])
    {
      VisitCoordinate(min, max, k, d);
      var c := min[d] + (k / stride) % (max[d] - min[d] + 1);
      PositionToIndexPrefix(p, dims, d);
      index := index + c * imageStride;
      StrideNext(e, d);
      stride := stride * (max[d] - min[d] + 1);
      imageStride := imageStride * dims[d];
    }
    assert p[..|dims|] == p && dims[..|dims|] == dims;
  }

  /**
   * Writes the position of the interval's `k`-th element into the first
   * `|min|` entries of `out`, axis by axis with a running stride over the
   * extents.
   */
  method VisitPositionInto(min: seq<int>, max: seq<int>, k: nat, out: array<int>)
    requires IsInterval(min, max) && out.Length >= |min|
    modifies out
    ensures out[..|min|] == VisitPosition(min, max, k)
    ensures out[|min|..] == old(out[|min|..])
  {
    var e, n := Extents(min, max), |min|;
    ghost var target := VisitPosition(min, max, k);
    var stride := 1;
    for d := 0 to n
      invariant stride == Stride(e, d) && stride > 0
      invariant forall j :: 0 <= j < d ==> out[j] == target[j]
      invariant out[n..] == old(out[n..])
    {
      VisitCoordinate(min, max, k, d);
      out[d] := min[d] + (k / stride) % (max[d] - min[d] + 1);
      StrideNext(e, d);
      stride := stride * (max[d] - min[d] + 1);
    }
    assert out[..n] == target;
  }

  /**
   * The odometer step on a position array: axis 0 advances; an axis that
   * passes `max` returns to `min` and carries into the next axis.
   */
  method Advance(position: array<int>, min: seq<int>, max: seq<int>)
    requires position.Length == |min| == |max|
    modifies position
    ensures position[..] == Step(old(position[..]), min, max)
  {
    ghost var before := position[..];
    var d := 0;
    while d < position.Length && position[d] + 1 > max[d]
      invariant 0 <= d <= position.Length
      invariant forall k :: 0 <= k < d ==> position[k] == min[k] && before[k] + 1 > max[k]
      invariant forall k :: d <= k < position.Length ==> position[k] == before[k]
    {
      position[d] := min[d];
      d := d + 1;
    }
    StepCarries(before, min, max, d);
    if d < position.Length {
      StepSuffix(before, min, max, d);
      position[d] := position[d] + 1;
      assert position[..] == min[..d] + ([before[d] + 1] + before[d + 1..]);
    } else {
      assert position[..] == min[..d];
    }
  }

  class LocalizingIntervalCursor {
    const n: nat
    const dims: seq<int>
    const min: seq<int>
    const max: seq<int>
    /** The image's data, shared with the image. */
    const data: array<int>
    /** The current position; its contents change, the array does not. */
    const position: array<int>
    /** The number of elements visited since the last reset, minus one. */
    var count: int

    ghost predicate Valid()
      reads this, position
    {
      n == |dims| && Shape(dims, min, max, data.Length) &&
      position.Length == n && position != data &&
      -1 <= count < IntervalSize(min, max) &&
      position[..] == CursorPosition(min, max, count)
    }

    constructor (dims: seq<int>, min: seq<int>, max: seq<int>, data: array<int>)
      requires Shape(dims, min, max, data.Length)
      ensures Valid() && fresh(position)
      ensures this.dims == dims && this.min == min && this.max == max && this.data == data
      ensures count == -1
    {
      this.n := |dims|;
      this.dims := dims;
      this.min := min;
      this.max := max;
      this.data := data;
      this.position := new int[|dims|];
      this.count := -1;
      new;
      Reset();
    }

    /** Rewinds to before the first element: `min`, one step back on axis 0. */
    method Reset()
      requires n == |dims| && Shape(dims, min, max, data.Length)
      requires position.Length == n && position != data
      modifies this`count, position
      ensures Valid() && count == -1
      ensures position[..] == BeforeFirst(min)
    {
      for d := 0 to n
        invariant forall k :: 0 <= k < d ==> position[k] == min[k]
      {
        position[d] := min[d];
      }
      position[0] := min[0] - 1;
      count := -1;
      assert position[..] == BeforeFirst(min);
    }

    /** Another element follows exactly when the cursor is not yet at `max`. */
    function HasNext(): (b: bool)
      reads this, position
      requires Valid()
      ensures b <==> position[..] != max
    {
      CursorAtMaxOnlyAtLast(min, max, count);
      count < IntervalSize(min, max) - 1
    }

    /** The value at the current element: the datum at the `count`-th visited index. */
    function Get(): (v: int)
      reads this, position, data
      requires Valid() && count >= 0
      ensures IndicesIn(Visits(dims, min, max), data.Length)
      ensures v == data[Visits(dims, min, max)[count]]
    {
      VisitsDistinct(dims, min, max);
      VisitInImage(dims, min, max, count);
      PositionToIndexInRange(position[..], dims);
      data[PositionToIndex(position[..], dims)]
    }

    /** Moves to the next element: one odometer step over `[min, max]`. */
    method Fwd()
      requires Valid() && HasNext()
      modifies this`count, position
      ensures Valid() && count == old(count) + 1
      ensures position[..] == Step(old(position[..]), min, max)
    {
      Advance(position, min, max);
      count := count + 1;
      StepCursorPosition(min, max, old(count));
    }

    /** `Fwd`, then the value at the new element. */
    method Next() returns (v: int)
      requires Valid() && HasNext()
      modifies this`count, position
      ensures Valid() && count == old(count) + 1
      ensures position[..] == Step(old(position[..]), min, max)
      ensures IndicesIn(Visits(dims, min, max), data.Length)
      ensures v == data[Visits(dims, min, max)[count]]
    {
      Fwd();
      v := Get();
    }

    /** `steps` calls of `Fwd`; none when `steps <= 0`. */
    method JumpFwd(steps: int)
      requires Valid() && (steps <= 0 || count + steps < IntervalSize(min, max))
      modifies this`count, position
      ensures Valid()
      ensures steps <= 0 ==> count == old(count) && position[..] == old(position[..])
      ensures steps > 0 ==> count == old(count) + steps &&
                            position[..] == Steps(old(position[..]), min, max, steps)
    {
      ghost var start := position[..];
      var j := 0;
      while j < steps
        invariant Valid()
        invariant steps <= 0 ==> j == 0
        invariant steps > 0 ==> 0 <= j <= steps
        invariant count == old(count) + j
        invariant position[..] == Steps(start, min, max, j)
      {
        ghost var before := position[..];
        Fwd();
        assert position[..] == Step(before, min, max) == Steps(start, min, max, j + 1);
        j := j + 1;
      }
    }

    /** Writes the position into the first `n` entries of `out`. */
    method Localize(out: array<int>)
      requires Valid() && out.Length >= n
      modifies out
      ensures Valid() && position[..] == old(position[..])
      ensures out[..n] == position[..]
      ensures out[n..] == old(out[n..])
    {
      for d := 0 to n
        invariant position[..] == old(position[..])
        invariant forall k :: 0 <= k < d ==> out[k] == position[k]
        invariant out[n..] == old(out[n..])
      {
        out[d] := position[d];
      }
    }

    /** Removing through a cursor is not supported: nothing changes. */
    method Remove()
      requires Valid()
      ensures unchanged(this) && unchanged(position)
    {
    }
  }

  /**
   * A cursor that keeps only its element count and the data index of its
   * current element; it computes its position when asked.
   */
  class IntervalCursor {
    const n: nat
    const dims: seq<int>
    const min: seq<int>
    const max: seq<int>
    const data: array<int>
    /** The number of elements visited since the last reset, minus one. */
    var count: int
    /** The data index of the current element; meaningful once `count >= 0`. */
    var index: int

    ghost predicate Valid()
      reads this
    {
      n == |dims| && Shape(dims, min, max, data.Length) && -1 <= count < IntervalSize(min, max) &&
      (count >= 0 ==> index == Visits(dims, min, max)[count])
    }

    constructor (dims: seq<int>, min: seq<int>, max: seq<int>, data: array<int>)
      requires Shape(dims, min, max, data.Length)
      ensures Valid() && count == -1
      ensures this.dims == dims && this.min == min && this.max == max && this.data == data
    {
      this.n := |dims|;
      this.dims := dims;
      this.min := min;
      this.max := max;
      this.data := data;
      this.count := -1;
      this.index := 0;
    }

    method Reset()
      requires Valid()
      modifies this`count
      ensures Valid() && count == -1
    {
      count := -1;
    }

    /** Another element follows exactly when the cursor is not yet at `max`. */
    function HasNext(): (b: bool)
      reads this
      requires Valid()
      ensures b <==> CursorPosition(min, max, count) != max
    {
      CursorAtMaxOnlyAtLast(min, max, count);
      count < IntervalSize(min, max) - 1
    }

    /** The value at the current element: the datum at the `count`-th visited index. */
    function Get(): (v: int)
      reads this, data
      requires Valid() && count >= 0
      ensures IndicesIn(Visits(dims, min, max), data.Length)
      ensures v == data[Visits(dims, min, max)[count]]
    {
      VisitsDistinct(dims, min, max);
      data[index]
    }

    /** Moves to the next element and recomputes its data index. */
    method Fwd()
      requires Valid() && HasNext()
      modifies this`count, this`index
      ensures Valid() && count == old(count) + 1
    {
      count := count + 1;
      index := VisitIndex(dims, min, max, count);
    }

    /** Moves `steps` elements at once; none when `steps <= 0`. */
    method JumpFwd(steps: int)
      requires Valid() && (steps <= 0 || count + steps < IntervalSize(min, max))
      modifies this`count, this`index
      ensures Valid()
      ensures count == old(count) + (if steps <= 0 then 0 else steps)
    {
      if steps > 0 {
        count := count + steps;
        index := VisitIndex(dims, min, max, count);
      }
    }

    /**
     * Writes the position of the current element into the first `n` entries
     * of `out`, computed from the element count by strides.
     */
    method Localize(out: array<int>)
      requires Valid() && count >= 0 && out.Length >= n
      modifies out
      ensures out[..n] == VisitPosition(min, max, count)
      ensures out[n..] == old(out[n..])
    {
      VisitPositionInto(min, max, count, out);
    }
  }

  /** `jumpFwd(a)` then `jumpFwd(b)` leaves the cursor where `jumpFwd(a + b)` would. */
  method JumpFwdTwice(c: LocalizingIntervalCursor, a: nat, b: nat)
    requires c.Valid() && c.count + a + b < IntervalSize(c.min, c.max)
    modifies c`count, c.position
    ensures c.Valid() && c.count == old(c.count) + a + b
    ensures c.position[..] == Steps(old(c.position[..]), c.min, c.max, a + b)
  {
    ghost var start := c.position[..];
    c.JumpFwd(a);
    c.JumpFwd(b);
    StepsAdd(start, c.min, c.max, a, b);
  }
}
