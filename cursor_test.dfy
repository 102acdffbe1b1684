/**
 * The sub-interval cursor test's two procedures, stated for both cursor
 * kinds. Each returns the outcome of the test's assertions, and its
 * postcondition says every assertion holds for every interval the test could
 * use, whether it is the full-width "fast" interval or the "shifted" one.
 */
module SubIntervalCursorTest {
  import opened SubInterval
  import opened Cursors

  /**
   * Steps a fresh localizing cursor once and checks it is at `min`; resets it,
   * walks it to the end summing the values, and checks the count, the final
   * position and the sum against the test's reference helpers.
   */
  method TestCursorIteration(cursor: LocalizingIntervalCursor)
      returns (startOk: bool, countOk: bool, endOk: bool, sumOk: bool)
    requires cursor.Valid() && cursor.count == -1
    modifies cursor`count, cursor.position
    ensures startOk && countOk && endOk && sumOk
  {
    var n := cursor.n;
    var min, max, dims, data := cursor.min, cursor.max, cursor.dims, cursor.data;
    var position := new int[n];

    FirstVisitIsMin(min, max);
    cursor.Fwd();
    cursor.Localize(position);
    startOk := position[..] == min;

    cursor.Reset();
    var ctr, sum := Walk(cursor, position);

    var size := GetIntervalSize(min, max);
    countOk := size == ctr;
    LastVisitIsMax(min, max);
    endOk := position[..] == max;
    var reference := GetSum(data, dims, min, max);
    CursorSumIsFilteredSum(data[..], dims, min, max);
    sumOk := sum == reference;
  }

  /** The test loop's running state after `ctr` passes: `sum` adds the data at the first `ctr` visits. */
  ghost predicate Walked(data: seq<int>, visits: seq<int>, ctr: int, sum: int)
  {
    0 <= ctr <= |visits| && IndicesIn(visits, |data|) &&
    IndicesIn(visits[..ctr], |data|) && sum == SumAt(data, visits[..ctr])
  }

  /**
   * One pass of the test's loop body: step, localize into `position`, add the
   * value, count. The pass moves to the next element, leaves its position in
   * `position`, and adds its value to the running sum.
   */
  method Pass(cursor: LocalizingIntervalCursor, position: array<int>, ghost data: seq<int>, ghost visits: seq<int>,
              ctr: int, sum: int)
      returns (ctr': int, sum': int)
    requires cursor.Valid() && cursor.HasNext() && cursor.count == ctr - 1
    requires position.Length == cursor.n && position != cursor.position && position != cursor.data
    requires data == cursor.data[..] && visits == Visits(cursor.dims, cursor.min, cursor.max)
    requires Walked(data, visits, ctr, sum)
    modifies cursor`count, cursor.position, position
    ensures cursor.Valid() && cursor.count == ctr && ctr' == ctr + 1 && cursor.data[..] == data
    ensures Walked(data, visits, ctr', sum')
    ensures position[..] == VisitPosition(cursor.min, cursor.max, ctr)
  {
    cursor.Fwd();
    cursor.Localize(position);
    assert position[..] == position[..cursor.n];
    var v := cursor.Get();
    SumAtPrefix(data, visits, ctr);
    sum' := sum + v;
    ctr' := ctr + 1;
  }

  /**
   * The test's loop: while another element follows, step, localize into
   * `position`, add the value and count. It visits every element of the
   * interval once, ends on the last one, and sums the values there.
   */
  method Walk(cursor: LocalizingIntervalCursor, position: array<int>) returns (ctr: int, sum: int)
    requires cursor.Valid() && cursor.count == -1
    requires position.Length == cursor.n && position != cursor.position && position != cursor.data
    modifies cursor`count, cursor.position, position
    ensures cursor.Valid()
    ensures ctr == |Visits(cursor.dims, cursor.min, cursor.max)|
    ensures IndicesIn(Visits(cursor.dims, cursor.min, cursor.max), cursor.data.Length)
    ensures sum == SumAt(cursor.data[..], Visits(cursor.dims, cursor.min, cursor.max))
    ensures position[..] == VisitPosition(cursor.min, cursor.max, ctr - 1)
  {
    ctr := 0;
    sum := 0;
    ghost var visits := Visits(cursor.dims, cursor.min, cursor.max);
    ghost var data := cursor.data[..];
    VisitsDistinct(cursor.dims, cursor.min, cursor.max);
    assert visits[..0] == [];
    while cursor.HasNext()
      invariant cursor.Valid() && cursor.count == ctr - 1 && cursor.data[..] == data
      invariant Walked(data, visits, ctr, sum)
      invariant ctr > 0 ==> position[..] == VisitPosition(cursor.min, cursor.max, ctr - 1)
      decreases |visits| - ctr
    {
      ctr, sum := Pass(cursor, position, data, visits, ctr, sum);
    }
    assert ctr == |visits| by {
      assert !(cursor.count < IntervalSize(cursor.min, cursor.max) - 1);
    }
    assert visits[..ctr] == visits;
  }

  /** The same procedure on a cursor that computes its position on demand. */
  method TestPlainCursorIteration(cursor: IntervalCursor)
      returns (startOk: bool, countOk: bool, endOk: bool, sumOk: bool)
    requires cursor.Valid() && cursor.count == -1
    modifies cursor`count, cursor`index
    ensures startOk && countOk && endOk && sumOk
  {
    var n := cursor.n;
    var min, max, dims, data := cursor.min, cursor.max, cursor.dims, cursor.data;
    var position := new int[n];

    FirstVisitIsMin(min, max);
    cursor.Fwd();
    cursor.Localize(position);
    startOk := position[..] == min;

    cursor.Reset();
    var ctr, sum := PlainWalk(cursor, position);

    var size := GetIntervalSize(min, max);
    countOk := size == ctr;
    LastVisitIsMax(min, max);
    endOk := position[..] == max;
    var reference := GetSum(data, dims, min, max);
    CursorSumIsFilteredSum(data[..], dims, min, max);
    sumOk := sum == reference;
  }

  /** One pass of the test's loop body on a cursor that computes its position on demand. */
  method PlainPass(cursor: IntervalCursor, position: array<int>, ghost data: seq<int>, ghost visits: seq<int>,
                   ctr: int, sum: int)
      returns (ctr': int, sum': int)
    requires cursor.Valid() && cursor.HasNext() && cursor.count == ctr - 1
    requires position.Length == cursor.n && position != cursor.data
    requires data == cursor.data[..] && visits == Visits(cursor.dims, cursor.min, cursor.max)
    requires Walked(data, visits, ctr, sum)
    modifies cursor`count, cursor`index, position
    ensures cursor.Valid() && cursor.count == ctr && ctr' == ctr + 1 && cursor.data[..] == data
    ensures Walked(data, visits, ctr', sum')
    ensures position[..] == VisitPosition(cursor.min, cursor.max, ctr)
  {
    cursor.Fwd();
    cursor.Localize(position);
    assert position[..] == position[..cursor.n];
    var v := cursor.Get();
    SumAtPrefix(data, visits, ctr);
    sum' := sum + v;
    ctr' := ctr + 1;
  }

  /** The test's loop on a cursor that computes its position on demand. */
  method PlainWalk(cursor: IntervalCursor, position: array<int>) returns (ctr: int, sum: int)
    requires cursor.Valid() && cursor.count == -1
    requires position.Length == cursor.n && position != cursor.data
    modifies cursor`count, cursor`index, position
    ensures cursor.Valid()
    ensures ctr == |Visits(cursor.dims, cursor.min, cursor.max)|
    ensures IndicesIn(Visits(cursor.dims, cursor.min, cursor.max), cursor.data.Length)
    ensures sum == SumAt(cursor.data[..], Visits(cursor.dims, cursor.min, cursor.max))
    ensures position[..] == VisitPosition(cursor.min, cursor.max, ctr - 1)
  {
    ctr := 0;
    sum := 0;
    ghost var visits := Visits(cursor.dims, cursor.min, cursor.max);
    ghost var data := cursor.data[..];
    VisitsDistinct(cursor.dims, cursor.min, cursor.max);
    assert visits[..0] == [];
    while cursor.HasNext()
      invariant cursor.Valid() && cursor.count == ctr - 1 && cursor.data[..] == data
      invariant Walked(data, visits, ctr, sum)
      invariant ctr > 0 ==> position[..] == VisitPosition(cursor.min, cursor.max, ctr - 1)
      decreases |visits| - ctr
    {
      ctr, sum := PlainPass(cursor, position, data, visits, ctr, sum);
    }
    assert visits[..ctr] == visits;
  }

  /**
   * Jumps a fresh localizing cursor 18 elements ahead and checks it is at
   * `min` moved 17 along axis 0; the test's intervals are at least 18 wide
   * along axis 0.
   */
  method TestCursorJumpFwd(cursor: LocalizingIntervalCursor) returns (ok: bool)
    requires cursor.Valid() && cursor.count == -1
    requires cursor.max[0] - cursor.min[0] + 1 >= 18
    modifies cursor`count, cursor.position
    ensures ok
  {
    var min, max := cursor.min, cursor.max;
    var position := new int[cursor.n];
    var reference := min[0 := min[0] + 17];

    IntervalSizeAtLeastAxis0(min, max);
    cursor.JumpFwd(18);
    StepsCursorPosition(min, max, -1, 18);
    VisitAlongAxis0(min, max, 17);
    cursor.Localize(position);
    ok := position[..] == reference;
  }

  /** The same jump on a cursor that computes its position on demand. */
  method TestPlainCursorJumpFwd(cursor: IntervalCursor) returns (ok: bool)
    requires cursor.Valid() && cursor.count == -1
    requires cursor.max[0] - cursor.min[0] + 1 >= 18
    modifies cursor`count, cursor`index
    ensures ok
  {
    var min, max := cursor.min, cursor.max;
    var position := new int[cursor.n];
    var reference := min[0 := min[0] + 17];

    IntervalSizeAtLeastAxis0(min, max);
    cursor.JumpFwd(18);
    VisitAlongAxis0(min, max, 17);
    cursor.Localize(position);
    ok := position[..] == reference;
  }
}
