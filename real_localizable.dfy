/**
 * A real-valued location kept in a `double` array: `n` axes, the position
 * either allocated fresh or wrapped from the caller's array, so that writes to
 * that array are what the location reports.
 */
module RealLocalizable {

  class AbstractRealLocalizable {
    /** The number of axes, fixed at construction. */
    const n: nat
    /** The position; subclasses that move the location write into it. */
    const position: array<real>

    ghost predicate Valid()
    {
      position.Length == n
    }

    /** A location with `n` axes at the origin, in an array of its own. */
    constructor Fresh(n: nat)
      ensures Valid() && this.n == n
      ensures fresh(position) && position[..] == seq(n, d => 0.0)
    {
      this.n := n;
      this.position := new real[n](d => 0.0);
    }

    /** A location whose position is `position` itself, not a copy. */
    constructor Wrap(position: array<real>)
      ensures Valid() && n == position.Length
      ensures this.position == position
    {
      this.n := position.Length;
      this.position := position;
    }

    /** The coordinate along axis `d`. */
    function GetDoublePosition(d: int): (x: real)
      reads position
      requires Valid() && 0 <= d < n
      ensures x == position[d]
    {
      position[d]
    }

    /**
     * Copies the position into the first `n` entries of `pos`, which may be
     * the position array itself; the rest of `pos` and the position are
     * unchanged.
     */
    method Localize(pos: array<real>)
      requires Valid() && pos.Length >= n
      modifies pos
      ensures forall d :: 0 <= d < n ==> pos[d] == old(GetDoublePosition(d))
      ensures pos[n..] == old(pos[n..])
      ensures position[..] == old(position[..])
    {
      for d := 0 to n
        invariant position[..] == old(position[..])
        invariant forall k :: 0 <= k < d ==> pos[k] == old(position[k])
        invariant pos[n..] == old(pos[n..])
      {
        pos[d] := position[d];
      }
    }
  }

  /**
   * Wrapping shares the array: a write to it after wrapping is what the
   * location then reports on that axis, and the other axes keep their values.
   */
  method WrappedWriteIsVisible(arr: array<real>, d: int, v: real) returns (loc: AbstractRealLocalizable)
    requires 0 <= d < arr.Length
    modifies arr
    ensures loc.Valid() && loc.position == arr && loc.n == arr.Length
    ensures loc.GetDoublePosition(d) == v
    ensures forall k :: 0 <= k < loc.n && k != d ==> loc.GetDoublePosition(k) == old(arr[k])
  {
    loc := new AbstractRealLocalizable.Wrap(arr);
    arr[d] := v;
  }
}
