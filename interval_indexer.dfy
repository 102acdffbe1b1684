/**
 * Row-major conversion between a linear index into a flat buffer and an
 * n-dimensional position, axis 0 varying fastest. This is the arithmetic the
 * sub-interval test relies on when it walks the raw image data with
 * `IntervalIndexer.indexToPosition`.
 */
module IntervalIndexer {

  /** Every extent of a dimension vector is positive (an image with no empty axis). */
  predicate Positive(dims: seq<int>)
  {
    forall d :: 0 <= d < |dims| ==> dims[d] > 0
  }

  /** `pos` lies inside the box `[0, dims[d])` on every axis. */
  predicate InBounds(pos: seq<int>, dims: seq<int>)
  {
    |pos| == |dims| && forall d :: 0 <= d < |dims| ==> 0 <= pos[d] < dims[d]
  }

  /** The number of elements of an image with the given dimensions. */
  function Product(dims: seq<int>): (p: int)
    ensures Positive(dims) ==> p > 0
  {
    if |dims| == 0 then 1 else dims[0] * Product(dims[1..])
  }

  /** The all-zero position of the given dimensionality. */
  function Zeros(n: nat): (z: seq<int>)
    ensures |z| == n && forall d :: 0 <= d < n ==> z[d] == 0
  {
    seq(n, d => 0)
  }

  /** The position of linear index `idx`: `pos[0] = idx % dims[0]`, the rest from `idx / dims[0]`. */
  function IndexToPosition(idx: nat, dims: seq<int>): (pos: seq<int>)
    requires Positive(dims)
    ensures InBounds(pos, dims)
    decreases |dims|
  {
    if |dims| == 0 then [] else [idx % dims[0]] + IndexToPosition(idx / dims[0], dims[1..])
  }

  /** The linear index of `pos`: `pos[0] + dims[0] * (index of the rest)`. */
  function PositionToIndex(pos: seq<int>, dims: seq<int>): (idx: int)
    requires |pos| == |dims|
  {
    if |dims| == 0 then 0 else pos[0] + dims[0] * PositionToIndex(pos[1..], dims[1..])
  }

  /** The stride of axis `d`: how far the linear index moves when `pos[d]` grows by one. */
  function Stride(dims: seq<int>, d: nat): int
    requires d <= |dims|
  {
    Product(dims[..d])
  }

  /**
   * The odometer step in local coordinates: axis 0 advances; an axis that
   * reaches its extent returns to 0 and carries into the next axis.
   */
  function Increment(pos: seq<int>, dims: seq<int>): (next: seq<int>)
    requires |pos| == |dims|
    ensures |next| == |dims|
  {
    if |dims| == 0 then []
    else if pos[0] + 1 < dims[0] then [pos[0] + 1] + pos[1..]
    else [0] + Increment(pos[1..], dims[1..])
  }

  // ---------------------------------------------------------------------------
  // Arithmetic helpers

  /** Euclidean division is determined by any quotient/remainder pair. */
  lemma DivModUnique(x: int, m: int, q: int, r: int)
    requires m > 0 && 0 <= r < m && x == m * q + r
    ensures x / m == q && x % m == r
  {
    var q', r' := x / m, x % m;
    assert m * (q - q') == r' - r;
    MulSign(m, q - q');
  }

  lemma MulSign(m: int, k: int)
    requires m > 0
    ensures k >= 1 ==> m * k >= m
    ensures k <= -1 ==> m * k <= -m
  {
  }

  lemma MulLe(m: int, a: int, b: int)
    requires m >= 0 && a <= b
    ensures m * a <= m * b
  {
  }

  lemma MulAddAssoc(m: int, a: int, x: int, p: int)
    ensures m * (a + x * p) == m * a + x * (m * p)
  {
  }

  /** Dividing twice is dividing by the product. */
  lemma DivDiv(x: nat, a: int, b: int)
    requires a > 0 && b > 0
    ensures (x / a) / b == x / (a * b)
  {
    var q, r := x / a, x % a;
    var q2, r2 := q / b, q % b;
    assert x == a * (b * q2 + r2) + r;
    assert x == (a * b) * q2 + (a * r2 + r);
    assert a * r2 + r < a * b by { MulLe(a, r2 + 1, b); }
    DivModUnique(x, a * b, q2, a * r2 + r);
  }

  // ---------------------------------------------------------------------------
  // Properties

  lemma {:induction false} ProductSnoc(dims: seq<int>, x: int)
    ensures Product(dims + [x]) == Product(dims) * x
  {
    if |dims| > 0 {
      assert (dims + [x])[1..] == dims[1..] + [x];
      ProductSnoc(dims[1..], x);
      calc {
        Product(dims + [x]);
        dims[0] * (Product(dims[1..]) * x);
        (dims[0] * Product(dims[1..])) * x;
      }
    }
  }

  /** Appending an axis adds its coordinate times the stride of that axis. */
  lemma {:induction false} PositionToIndexSnoc(pos: seq<int>, dims: seq<int>, x: int, y: int)
    requires |pos| == |dims|
    ensures PositionToIndex(pos + [x], dims + [y]) == PositionToIndex(pos, dims) + x * Product(dims)
  {
    if |dims| == 0 {
      assert pos + [x] == [x] && dims + [y] == [y];
      assert PositionToIndex([x], [y]) == x + y * PositionToIndex([], []);
    } else {
      var rest := PositionToIndex(pos[1..], dims[1..]);
      assert (pos + [x])[1..] == pos[1..] + [x];
      assert (dims + [y])[1..] == dims[1..] + [y];
      PositionToIndexSnoc(pos[1..], dims[1..], x, y);
      var m, p := dims[0], Product(dims[1..]);
      assert PositionToIndex(pos + [x], dims + [y]) == pos[0] + m * (rest + x * p);
      MulAddAssoc(m, rest, x, p);
    }
  }

  /** The index of the first `d + 1` axes adds axis `d`'s coordinate times its stride. */
  lemma PositionToIndexPrefix(pos: seq<int>, dims: seq<int>, d: nat)
    requires |pos| == |dims| && d < |dims|
    ensures PositionToIndex(pos[..d + 1], dims[..d + 1]) ==
            PositionToIndex(pos[..d], dims[..d]) + pos[d] * Stride(dims, d)
    ensures Stride(dims, d + 1) == Stride(dims, d) * dims[d]
  {
    assert pos[..d + 1] == pos[..d] + [pos[d]];
    assert dims[..d + 1] == dims[..d] + [dims[d]];
    PositionToIndexSnoc(pos[..d], dims[..d], pos[d], dims[d]);
    StrideNext(dims, d);
  }

  /** A position inside the image has a linear index inside the buffer. */
  lemma {:induction false} PositionToIndexInRange(pos: seq<int>, dims: seq<int>)
    requires InBounds(pos, dims)
    ensures 0 <= PositionToIndex(pos, dims) < Product(dims)
  {
    if |dims| > 0 {
      var rest := PositionToIndex(pos[1..], dims[1..]);
      PositionToIndexInRange(pos[1..], dims[1..]);
      MulLe(dims[0], rest + 1, Product(dims[1..]));
      assert dims[0] * rest >= 0;
    }
  }

  /** Round trip: the position of the index of a position is that position. */
  lemma {:induction false} IndexToPositionOfPositionToIndex(pos: seq<int>, dims: seq<int>)
    requires Positive(dims) && InBounds(pos, dims)
    ensures PositionToIndex(pos, dims) >= 0
    ensures IndexToPosition(PositionToIndex(pos, dims), dims) == pos
  {
    PositionToIndexInRange(pos, dims);
    if |dims| > 0 {
      var rest := PositionToIndex(pos[1..], dims[1..]);
      PositionToIndexInRange(pos[1..], dims[1..]);
      DivModUnique(PositionToIndex(pos, dims), dims[0], rest, pos[0]);
      IndexToPositionOfPositionToIndex(pos[1..], dims[1..]);
    }
  }

  /** Round trip: the index of the position of an index inside the buffer is that index. */
  lemma {:induction false} PositionToIndexOfIndexToPosition(idx: nat, dims: seq<int>)
    requires Positive(dims) && idx < Product(dims)
    ensures PositionToIndex(IndexToPosition(idx, dims), dims) == idx
    decreases |dims|
  {
    if |dims| > 0 {
      var q := idx / dims[0];
      if q >= Product(dims[1..]) {
        MulLe(dims[0], Product(dims[1..]), q);
        assert false;
      }
      PositionToIndexOfIndexToPosition(q, dims[1..]);
    }
  }

  /** Linear indices and in-bounds positions correspond one to one. */
  lemma IndexToPositionInjective(i: nat, j: nat, dims: seq<int>)
    requires Positive(dims) && i < Product(dims) && j < Product(dims)
    requires IndexToPosition(i, dims) == IndexToPosition(j, dims)
    ensures i == j
  {
    PositionToIndexOfIndexToPosition(i, dims);
    PositionToIndexOfIndexToPosition(j, dims);
  }

  /** The stride form: `pos[d] == (idx / stride[d]) % dims[d]`. */
  lemma {:induction false} IndexToPositionStride(idx: nat, dims: seq<int>, d: nat)
    requires Positive(dims) && d < |dims|
    ensures Stride(dims, d) > 0
    ensures IndexToPosition(idx, dims)[d] == (idx / Stride(dims, d)) % dims[d]
    decreases |dims|
  {
    assert Positive(dims[..d]);
    if d > 0 {
      var tail := dims[1..];
      IndexToPositionStride(idx / dims[0], tail, d - 1);
      assert dims[..d][1..] == tail[..d - 1];
      DivDiv(idx, dims[0], Stride(tail, d - 1));
    }
  }

  /** Stride recurrence used by stride loops: `stride[d + 1] == stride[d] * dims[d]`. */
  lemma StrideNext(dims: seq<int>, d: nat)
    requires d < |dims|
    ensures Stride(dims, d + 1) == Stride(dims, d) * dims[d]
  {
    assert dims[..d + 1] == dims[..d] + [dims[d]];
    ProductSnoc(dims[..d], dims[d]);
  }

  /** Index 0 is the origin. */
  lemma {:induction false} IndexToPositionZero(dims: seq<int>)
    requires Positive(dims)
    ensures IndexToPosition(0, dims) == Zeros(|dims|)
  {
    if |dims| > 0 {
      IndexToPositionZero(dims[1..]);
    }
  }

  /** The last index of the buffer is the far corner `dims - 1`. */
  lemma {:induction false} IndexToPositionLast(dims: seq<int>)
    requires Positive(dims)
    ensures forall d :: 0 <= d < |dims| ==> IndexToPosition(Product(dims) - 1, dims)[d] == dims[d] - 1
  {
    if |dims| > 0 {
      var rest := Product(dims[1..]);
      DivModUnique(Product(dims) - 1, dims[0], rest - 1, dims[0] - 1);
      IndexToPositionLast(dims[1..]);
    }
  }

  /** Below the extent of axis 0, the next index only advances axis 0. */
  lemma SuccNoCarry(idx: nat, dims: seq<int>)
    requires Positive(dims) && |dims| > 0 && idx % dims[0] + 1 < dims[0]
    ensures IndexToPosition(idx + 1, dims) ==
            [idx % dims[0] + 1] + IndexToPosition(idx / dims[0], dims[1..])
  {
    DivModUnique(idx + 1, dims[0], idx / dims[0], idx % dims[0] + 1);
  }

  /** At the extent of axis 0, the next index returns axis 0 to 0 and carries. */
  lemma SuccCarry(idx: nat, dims: seq<int>)
    requires Positive(dims) && |dims| > 0 && idx % dims[0] + 1 == dims[0]
    ensures IndexToPosition(idx + 1, dims) == [0] + IndexToPosition(idx / dims[0] + 1, dims[1..])
  {
    DivModUnique(idx + 1, dims[0], idx / dims[0] + 1, 0);
  }

  /** Advancing the linear index by one is one odometer step on the position. */
  lemma {:induction false} IndexToPositionSucc(idx: nat, dims: seq<int>)
    requires Positive(dims)
    ensures IndexToPosition(idx + 1, dims) == Increment(IndexToPosition(idx, dims), dims)
    decreases |dims|
  {
    if |dims| > 0 {
      var m, q, rest := dims[0], idx / dims[0], dims[1..];
      var pos := IndexToPosition(idx, dims);
      assert pos == [idx % m] + IndexToPosition(q, rest);
      if idx % m + 1 < m {
        SuccNoCarry(idx, dims);
      } else {
        SuccCarry(idx, dims);
        IndexToPositionSucc(q, rest);
      }
    }
  }

  // ---------------------------------------------------------------------------
  // In place

  /**
   * Fills `pos` with the position of `idx`, axis by axis with a running
   * stride, the way the test's sum helper has `indexToPosition` refill one
   * reusable array.
   */
  method IndexToPositionInto(idx: nat, dims: seq<int>, pos: array<int>)
    requires Positive(dims) && pos.Length == |dims|
    modifies pos
    ensures pos[..] == IndexToPosition(idx, dims)
  {
    var stride := 1;
    var d := 0;
    while d < |dims|
      invariant 0 <= d <= |dims|
      invariant stride == Stride(dims, d) && stride > 0
      invariant forall k :: 0 <= k < d ==> pos[k] == IndexToPosition(idx, dims)[k]
    {
      IndexToPositionStride(idx, dims, d);
      pos[d] := (idx / stride) % dims[d];
      StrideNext(dims, d);
      stride := stride * dims[d];
      d := d + 1;
    }
  }
}
