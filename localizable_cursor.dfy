/**
 * The position bookkeeping every localizable cursor of the older image
 * library shares: an `int` position vector, zero on construction and moved by
 * the concrete cursor kinds, and the container's dimension vector. `localize`
 * copies the position out into a caller's `int` or `long` array.
 */
module LocalizableCursor {
  import opened JavaTypes

  class AbstractLocalizableCursor {
    /** The number of axes of the image. */
    const numDimensions: nat
    /** The current position; its contents are moved by the concrete cursors. */
    const position: array<int32>
    /** The container's dimension vector, as the container hands it out. */
    const dimensions: array<int32>

    ghost predicate Valid()
    {
      position.Length == numDimensions
    }

    /**
     * A cursor over a container with `numDimensions` axes whose dimension
     * vector is `containerDimensions`: a fresh all-zero position.
     */
    constructor (numDimensions: nat, containerDimensions: array<int32>)
      ensures Valid() && this.numDimensions == numDimensions
      ensures fresh(position) && position[..] == seq(numDimensions, d => 0 as int32)
      ensures dimensions == containerDimensions
    {
      this.numDimensions := numDimensions;
      this.position := new int32[numDimensions](d => 0);
      this.dimensions := containerDimensions;
    }

    /** The coordinate along axis `dim`. */
    function GetIntPosition(dim: int): (p: int32)
      reads position
      requires Valid() && 0 <= dim < numDimensions
      ensures p == position[dim]
    {
      position[dim]
    }

    /** The coordinate along axis `dim`, widened: the same number as `GetIntPosition`. */
    function GetLongPosition(dim: int): (p: int64)
      reads position
      requires Valid() && 0 <= dim < numDimensions
      ensures p as int == GetIntPosition(dim) as int
    {
      position[dim] as int64
    }

    /**
     * Copies the position into the first `numDimensions` entries of `out`,
     * which may be the position array itself; the rest of `out` and the
     * position are unchanged.
     */
    method LocalizeInt(out: array<int32>)
      requires Valid() && out.Length >= numDimensions
      modifies out
      ensures forall d :: 0 <= d < numDimensions ==> out[d] == old(GetIntPosition(d))
      ensures out[numDimensions..] == old(out[numDimensions..])
      ensures position[..] == old(position[..])
    {
      for d := 0 to numDimensions
        invariant position[..] == old(position[..])
        invariant forall k :: 0 <= k < d ==> out[k] == old(position[k])
        invariant out[numDimensions..] == old(out[numDimensions..])
      {
        out[d] := position[d];
      }
    }

    /**
     * Copies the position, widened, into the first `numDimensions` entries of
     * `out`; the rest of `out` and the position are unchanged.
     */
    method LocalizeLong(out: array<int64>)
      requires Valid() && out.Length >= numDimensions
      modifies out
      ensures forall d :: 0 <= d < numDimensions ==> out[d] as int == GetIntPosition(d) as int
      ensures out[numDimensions..] == old(out[numDimensions..])
      ensures position[..] == old(position[..])
    {
      for d := 0 to numDimensions
        invariant forall k :: 0 <= k < d ==> out[k] as int == position[k] as int
        invariant out[numDimensions..] == old(out[numDimensions..])
      {
        out[d] := position[d] as int64;
      }
    }
  }
}
