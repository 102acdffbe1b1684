/**
 * A complex value of doubles that is a proxy onto an interleaved buffer: the
 * value bound to pixel `i` lives in slot `2 * i` (real part) and slot
 * `2 * i + 1` (imaginary part). One handle is rebound from pixel to pixel by
 * moving three counters in step, and its setters write through to the two
 * bound slots and no others. Stored values are never computed on, so they are
 * kept as `real`.
 */
module ComplexDouble {
  import opened JavaTypes

  // ---------------------------------------------------------------------------
  // Storage layout

  /** A ratio of storage entities to pixels. */
  datatype Fraction = Fraction(numerator: int, denominator: int)

  /** A complex double takes two doubles of storage per pixel. */
  function EntitiesPerPixel(): (f: Fraction)
    ensures f.denominator > 0 && f.numerator == 2 * f.denominator
  {
    Fraction(2, 1)
  }

  /** The first storage entity of `pixel` under a per-pixel ratio. */
  function FirstEntity(f: Fraction, pixel: int): int
    requires f.denominator > 0
  {
    pixel * f.numerator / f.denominator
  }

  /** The slot holding the real part of pixel `k`. */
  function RealSlot(k: int): int
  {
    2 * k
  }

  /** The slot holding the imaginary part of pixel `k`. */
  function ImaginarySlot(k: int): int
  {
    2 * k + 1
  }

  /**
   * Pixel `k` owns exactly the storage entities from its first entity up to
   * the next pixel's, and those are its real and imaginary slots; every slot
   * of the buffer belongs to exactly one pixel, `slot / 2`.
   */
  lemma PixelSlots(k: int, slot: int)
    ensures FirstEntity(EntitiesPerPixel(), k) == RealSlot(k)
    ensures FirstEntity(EntitiesPerPixel(), k + 1) == ImaginarySlot(k) + 1
    ensures slot == RealSlot(slot / 2) || slot == ImaginarySlot(slot / 2)
    ensures (slot == RealSlot(k) || slot == ImaginarySlot(k)) <==> k == slot / 2
  {
    var f := EntitiesPerPixel();
    assert k * f.numerator / f.denominator == 2 * k;
    assert (k + 1) * f.numerator / f.denominator == 2 * k + 2;
    if slot == RealSlot(k) || slot == ImaginarySlot(k) {
      DivTwo(k, slot - 2 * k);
    }
    if k == slot / 2 {
      assert slot == 2 * (slot / 2) + slot % 2;
    }
  }

  lemma DivTwo(k: int, r: int)
    requires 0 <= r < 2
    ensures (2 * k + r) / 2 == k
  {
  }

  /** The real slot of one pixel is never the imaginary slot of another. */
  lemma SlotsDisjoint(j: int, k: int)
    ensures RealSlot(j) != ImaginarySlot(k)
    ensures RealSlot(j) == RealSlot(k) <==> j == k
    ensures ImaginarySlot(j) == ImaginarySlot(k) <==> j == k
  {
    PixelSlots(j, RealSlot(j));
    PixelSlots(k, ImaginarySlot(k));
  }

  // ---------------------------------------------------------------------------
  // Index bookkeeping

  /** The three counters of a handle: the pixel index and its two slot indices. */
  datatype Binding = Binding(i: int, realI: int, imaginaryI: int)

  /** The slot indices are those of the pixel index. */
  predicate Coherent(b: Binding)
  {
    b.realI == RealSlot(b.i) && b.imaginaryI == ImaginarySlot(b.i)
  }

  /** Every counter fits a Java `int`. */
  predicate Fits(b: Binding)
  {
    FitsInt(b.i) && FitsInt(b.realI) && FitsInt(b.imaginaryI)
  }

  /** `updateIndex(k)`: the counters are recomputed from `k`. */
  function BindingAt(k: int): Binding
  {
    Binding(k, k * 2, k * 2 + 1)
  }

  /** `incIndex(n)`: the pixel index moves by `n`, each slot index by `2 * n`. */
  function Shift(b: Binding, n: int): Binding
  {
    Binding(b.i + n, b.realI + 2 * n, b.imaginaryI + 2 * n)
  }

  /** `decIndex(n)`: the pixel index moves back by `n`, each slot index by `2 * n`. */
  function Back(b: Binding, n: int): Binding
  {
    Binding(b.i - n, b.realI - 2 * n, b.imaginaryI - 2 * n)
  }

  /** `updateIndex(k)` binds the handle to pixel `k`. */
  lemma BindingAtIsCoherent(k: int)
    ensures Coherent(BindingAt(k)) && BindingAt(k).i == k
  {
  }

  /**
   * Moving a coherent handle by `n` either way keeps it coherent: it is bound
   * to pixel `i + n` (or `i - n`) exactly as `updateIndex` would bind it.
   */
  lemma ShiftRebinds(b: Binding, n: int)
    requires Coherent(b)
    ensures Shift(b, n) == BindingAt(b.i + n) && Coherent(Shift(b, n))
    ensures Back(b, n) == BindingAt(b.i - n) && Coherent(Back(b, n))
  {
  }

  /** Moving back by `n` undoes moving forward by `n`, and the other way round. */
  lemma BackUndoesShift(b: Binding, n: int)
    ensures Back(Shift(b, n), n) == b
    ensures Shift(Back(b, n), n) == b
  {
  }

  /** Two moves forward are one move by their sum, and likewise two moves back. */
  lemma ShiftAdd(b: Binding, m: int, n: int)
    ensures Shift(Shift(b, m), n) == Shift(b, m + n)
    ensures Back(Back(b, m), n) == Back(b, m + n)
  {
  }

  // ---------------------------------------------------------------------------
  // The handle

  class ComplexDoubleType {
    var i: int32
    var realI: int32
    var imaginaryI: int32
    /** The buffer read and written; shared with whoever handed it over. */
    var dataAccess: array<real>

    /** The counters as a value. */
    function Counters(): Binding
      reads this
    {
      Binding(i as int, realI as int, imaginaryI as int)
    }

    ghost predicate Valid()
      reads this
    {
      Coherent(Counters())
    }

    /** The two bound slots lie inside the buffer. */
    predicate Bound()
      reads this
    {
      0 <= realI as int && imaginaryI as int < dataAccess.Length
    }

    /** A variable: a fresh two-slot buffer holding `(r, im)`, bound to pixel 0. */
    constructor Variable(r: real, im: real)
      ensures Valid() && Bound() && Counters() == BindingAt(0)
      ensures fresh(dataAccess) && dataAccess[..] == [r, im]
      ensures GetRealDouble() == r && GetImaginaryDouble() == im
    {
      i, realI, imaginaryI := 0, 0, 1;
      dataAccess := new real[2];
      new;
      Set(r, im);
    }

    /** The variable `0 + 0i`. */
    constructor Zero()
      ensures Valid() && Bound() && Counters() == BindingAt(0)
      ensures fresh(dataAccess) && dataAccess[..] == [0.0, 0.0]
      ensures GetRealDouble() == 0.0 && GetImaginaryDouble() == 0.0
    {
      i, realI, imaginaryI := 0, 0, 1;
      dataAccess := new real[2];
      new;
      Set(0.0, 0.0);
    }

    /** A handle onto `access` itself (not a copy), bound to pixel 0. */
    constructor Wrap(access: array<real>)
      ensures Valid() && Counters() == BindingAt(0)
      ensures dataAccess == access
    {
      i, realI, imaginaryI := 0, 0, 1;
      dataAccess := access;
    }

    /** `createVariable`: a new variable `0 + 0i` of the same type. */
    method CreateVariable() returns (v: ComplexDoubleType)
      ensures fresh(v) && fresh(v.dataAccess) && v.Valid() && v.Bound()
      ensures v.Counters() == BindingAt(0)
      ensures v.GetRealDouble() == 0.0 && v.GetImaginaryDouble() == 0.0
    {
      v := new ComplexDoubleType.Variable(0.0, 0.0);
    }

    /** The pixel index; the handle's slots are that pixel's. */
    function GetIndex(): (k: int32)
      reads this
      requires Valid()
      ensures realI as int == RealSlot(k as int) && imaginaryI as int == ImaginarySlot(k as int)
    {
      i
    }

    /** The real part of the bound pixel. */
    function GetRealDouble(): (r: real)
      reads this, dataAccess
      requires Valid() && Bound()
      ensures r == dataAccess[RealSlot(i as int)]
    {
      dataAccess[realI]
    }

    /** The imaginary part of the bound pixel. */
    function GetImaginaryDouble(): (im: real)
      reads this, dataAccess
      requires Valid() && Bound()
      ensures im == dataAccess[ImaginarySlot(i as int)]
    {
      dataAccess[imaginaryI]
    }

    /** Binds the handle to pixel `index`. */
    method UpdateIndex(index: int32)
      requires Fits(BindingAt(index as int))
      modifies this`i, this`realI, this`imaginaryI
      ensures Valid() && Counters() == BindingAt(index as int)
    {
      i := index;
      realI := (index as int * 2) as int32;
      imaginaryI := (index as int * 2 + 1) as int32;
    }

    /** Moves to the next pixel. */
    method IncIndex()
      requires Valid() && Fits(Shift(Counters(), 1))
      modifies this`i, this`realI, this`imaginaryI
      ensures Valid() && Counters() == Shift(old(Counters()), 1)
    {
      i := i + 1;
      realI := realI + 2;
      imaginaryI := imaginaryI + 2;
    }

    /** Moves `increment` pixels ahead. */
    method IncIndexBy(increment: int32)
      requires Valid() && Fits(Shift(Counters(), increment as int))
      modifies this`i, this`realI, this`imaginaryI
      ensures Valid() && Counters() == Shift(old(Counters()), increment as int)
    {
      i := (i as int + increment as int) as int32;
      var inc2 := 2 * increment as int;
      realI := (realI as int + inc2) as int32;
      imaginaryI := (imaginaryI as int + inc2) as int32;
    }

    /** Moves to the previous pixel. */
    method DecIndex()
      requires Valid() && Fits(Back(Counters(), 1))
      modifies this`i, this`realI, this`imaginaryI
      ensures Valid() && Counters() == Back(old(Counters()), 1)
    {
      i := i - 1;
      realI := realI - 2;
      imaginaryI := imaginaryI - 2;
    }

    /** Moves `decrement` pixels back. */
    method DecIndexBy(decrement: int32)
      requires Valid() && Fits(Back(Counters(), decrement as int))
      modifies this`i, this`realI, this`imaginaryI
      ensures Valid() && Counters() == Back(old(Counters()), decrement as int)
    {
      i := (i as int - decrement as int) as int32;
      var dec2 := 2 * decrement as int;
      realI := (realI as int - dec2) as int32;
      imaginaryI := (imaginaryI as int - dec2) as int32;
    }

    /** Writes the real part: only the real slot of the bound pixel changes. */
    method SetReal(r: real)
      requires Valid() && Bound()
      modifies dataAccess
      ensures dataAccess[..] == old(dataAccess[..])[RealSlot(i as int) := r]
      ensures GetRealDouble() == r && GetImaginaryDouble() == old(GetImaginaryDouble())
    {
      SlotsDisjoint(i as int, i as int);
      dataAccess[realI] := r;
    }

    /** Writes the imaginary part: only the imaginary slot of the bound pixel changes. */
    method SetImaginary(im: real)
      requires Valid() && Bound()
      modifies dataAccess
      ensures dataAccess[..] == old(dataAccess[..])[ImaginarySlot(i as int) := im]
      ensures GetRealDouble() == old(GetRealDouble()) && GetImaginaryDouble() == im
    {
      SlotsDisjoint(i as int, i as int);
      dataAccess[imaginaryI] := im;
    }

    /** Writes both parts: only the two slots of the bound pixel change. */
    method Set(r: real, im: real)
      requires Valid() && Bound()
      modifies dataAccess
      ensures dataAccess[..] == old(dataAccess[..])[RealSlot(i as int) := r][ImaginarySlot(i as int) := im]
      ensures GetRealDouble() == r && GetImaginaryDouble() == im
    {
      SlotsDisjoint(i as int, i as int);
      dataAccess[realI] := r;
      dataAccess[imaginaryI] := im;
    }

    /**
     * Copies `c`'s value into this handle's pixel. `c` may share the buffer,
     * even be this very handle: writing the real slot never touches `c`'s
     * imaginary slot, so both parts read are `c`'s original ones, and `c`'s
     * own value is unchanged.
     */
    method SetFrom(c: ComplexDoubleType)
      requires Valid() && Bound() && c.Valid() && c.Bound()
      modifies dataAccess
      ensures dataAccess[..] == old(dataAccess[..])[RealSlot(i as int) := old(c.GetRealDouble())]
                                                   [ImaginarySlot(i as int) := old(c.GetImaginaryDouble())]
      ensures GetRealDouble() == old(c.GetRealDouble())
      ensures GetImaginaryDouble() == old(c.GetImaginaryDouble())
      ensures c.GetRealDouble() == old(c.GetRealDouble())
      ensures c.GetImaginaryDouble() == old(c.GetImaginaryDouble())
    {
      SlotsDisjoint(i as int, c.i as int);
      SlotsDisjoint(c.i as int, i as int);
      var r := c.GetRealDouble();
      SetReal(r);
      var im := c.GetImaginaryDouble();
      SetImaginary(im);
    }
  }

  /**
   * `decIndex(n)` after `incIndex(n)` returns the handle to the pixel it was
   * bound to, with all three counters restored and the buffer untouched.
   */
  method IncThenDec(t: ComplexDoubleType, n: int32)
    requires t.Valid() && Fits(Shift(t.Counters(), n as int))
    modifies t`i, t`realI, t`imaginaryI
    ensures t.Valid() && t.Counters() == old(t.Counters())
  {
    t.IncIndexBy(n);
    BackUndoesShift(old(t.Counters()), n as int);
    t.DecIndexBy(n);
  }
}
