/** Bit-pattern tests and updates on IEEE 754 binary64 / binary32 encodings, and the
    integer `Rectangle` with its two clamps. A `double` or `float` is represented by its
    bit pattern; reading it through the `IntDouble` / `IntFloat` unions is the identity
    on those bits. */
module MathUtil {

  const DOUBLE_SIGN: bv64 := 0x8000_0000_0000_0000
  const DOUBLE_EXP: bv64 := 0x7FF0_0000_0000_0000
  const DOUBLE_FRAC: bv64 := 0x000F_FFFF_FFFF_FFFF
  const DOUBLE_ZERO: bv64 := 0

  const FLOAT_SIGN: bv32 := 0x8000_0000
  const FLOAT_EXP: bv32 := 0x7F80_0000
  const FLOAT_FRAC: bv32 := 0x007F_FFFF
  const FLOAT_ZERO: bv32 := 0

  /** The quiet bit of a binary64 NaN: the most significant fraction bit (bit 51). */
  const DOUBLE_QUIET: bv64 := 0x0008_0000_0000_0000

  /** `IsNAN`: all exponent bits set and a non-zero fraction; that is, ignoring the sign,
      a pattern above that of infinity. */
  predicate IsNAN(x: bv64): (nan: bool)
    ensures nan <==> DOUBLE_EXP < x & !DOUBLE_SIGN
  {
    x & DOUBLE_EXP == DOUBLE_EXP && x & DOUBLE_FRAC != DOUBLE_ZERO
  }

  /** `IsQNAN` as written: its two masks have 15 hex digits, so they select fraction bits
      0..46 (required clear) and bit 47 (required set) rather than bits 0..50 and 51.
      Whatever it selects, it only accepts NaNs, since bit 47 lies inside the fraction. */
  predicate IsQNAN(x: bv64): (q: bool)
    ensures q ==> IsNAN(x)
    ensures q ==> x & 0xFFFF_FFFF_FFFF == 0x8000_0000_0000
  {
    && x & DOUBLE_EXP == DOUBLE_EXP
    && x & 0x0007fffffffffff == 0x000000000000000
    && x & 0x000800000000000 == 0x000800000000000
  }

  /** `IsSNAN`: a NaN whose quiet bit (bit 51) is clear; ignoring the sign, a pattern
      strictly between infinity and the canonical quiet NaN. */
  predicate IsSNAN(x: bv64): (s: bool)
    ensures s ==> IsNAN(x)
    ensures s <==> DOUBLE_EXP < x & !DOUBLE_SIGN < 0x7FF8_0000_0000_0000
  {
    && x & DOUBLE_EXP == DOUBLE_EXP
    && x & DOUBLE_FRAC != DOUBLE_ZERO
    && x & DOUBLE_QUIET == DOUBLE_ZERO
  }

  /** The canonical quiet NaN 0x7FF8000000000000 is a NaN, not a signalling one, and yet
      the as-written `IsQNAN` rejects it. */
  lemma CanonicalQuietNaNRejected()
    ensures IsNAN(0x7FF8_0000_0000_0000)
    ensures !IsSNAN(0x7FF8_0000_0000_0000)
    ensures !IsQNAN(0x7FF8_0000_0000_0000)
  {
  }

  /** 0x7FF0800000000000 has its quiet bit clear, so it is a signalling NaN, and yet the
      as-written `IsQNAN` accepts it too: the two tests are not exclusive. */
  lemma QuietAndSignallingOverlap()
    ensures IsSNAN(0x7FF0_8000_0000_0000) && IsQNAN(0x7FF0_8000_0000_0000)
  {
  }

  /** `IsQNAN` with the 16-digit masks `0x0007ffffffffffff` and `0x0008000000000000`:
      the quiet bit set and every lower fraction bit clear. It accepts exactly the
      canonical quiet NaN of either sign, which is a NaN and never a signalling one. */
  predicate IsQNANCorrected(x: bv64): (q: bool)
    ensures q <==> x & !DOUBLE_SIGN == 0x7FF8_0000_0000_0000
    ensures q ==> IsNAN(x) && !IsSNAN(x)
  {
    && x & DOUBLE_EXP == DOUBLE_EXP
    && x & 0x0007_FFFF_FFFF_FFFF == 0
    && x & DOUBLE_QUIET == DOUBLE_QUIET
  }

  /** `FlushToZero`: a binary32 pattern with a zero exponent field (a zero or a
      denormal) becomes the zero of the same sign; any other pattern is unchanged. */
  function FlushToZero(x: bv32): (r: bv32)
    ensures r & FLOAT_SIGN == x & FLOAT_SIGN
    ensures x & FLOAT_EXP == 0 ==> r & !FLOAT_SIGN == 0
    ensures x & FLOAT_EXP != 0 ==> r == x
  {
    if x & FLOAT_EXP == 0 then x & FLOAT_SIGN else x
  }

  /** The result of `FlushToZero` is never a denormal, and flushing it again changes
      nothing. */
  lemma FlushToZeroNormalises(x: bv32)
    ensures var r := FlushToZero(x);
      && (r & FLOAT_EXP == 0 ==> r & FLOAT_FRAC == 0)
      && FlushToZero(r) == r
  {
    var r := FlushToZero(x);
    if x & FLOAT_EXP == 0 {
      assert r == x & FLOAT_SIGN;
      assert r & FLOAT_EXP == 0;
    }
  }

  /** `FlushToZeroAsFloat`: a binary64 pattern whose exponent field is below 0x380 (a
      magnitude below 2^-127, under the normal range of binary32) becomes the zero of
      the same sign; any other pattern is unchanged. */
  function FlushToZeroAsFloat(x: bv64): (r: bv64)
    ensures r & DOUBLE_SIGN == x & DOUBLE_SIGN
    ensures x & DOUBLE_EXP < 0x3800_0000_0000_0000 ==> r & !DOUBLE_SIGN == 0
    ensures x & DOUBLE_EXP >= 0x3800_0000_0000_0000 ==> r == x
  {
    if x & DOUBLE_EXP < 0x3800_0000_0000_0000 then x & DOUBLE_SIGN else x
  }

  /** After `FlushToZeroAsFloat` the exponent field is either zero with a zero fraction
      or at least 0x380, and flushing again changes nothing. */
  lemma FlushToZeroAsFloatIdempotent(x: bv64)
    ensures var r := FlushToZeroAsFloat(x);
      && (r & DOUBLE_EXP < 0x3800_0000_0000_0000 ==> r & !DOUBLE_SIGN == 0)
      && FlushToZeroAsFloat(r) == r
  {
    var r := FlushToZeroAsFloat(x);
    if x & DOUBLE_EXP < 0x3800_0000_0000_0000 {
      assert r == x & DOUBLE_SIGN;
      assert r & DOUBLE_EXP == 0;
    }
  }

  /** `abs` on a difference of coordinates. */
  function Abs(d: int): (a: int)
    ensures a >= 0 && (a == d || a == -d)
  {
    if d < 0 then -d else d
  }

  /** `Rectangle<T>` over mathematical integers. */
  class Rectangle {
    var left: int
    var top: int
    var right: int
    var bottom: int

    constructor (theLeft: int, theTop: int, theRight: int, theBottom: int)
      ensures left == theLeft && top == theTop && right == theRight && bottom == theBottom
    {
      left, top, right, bottom := theLeft, theTop, theRight, theBottom;
    }

    /** `abs(right - left)`. */
    function GetWidth(): (w: int)
      reads this
      ensures w >= 0 && (w == right - left || w == left - right)
    {
      Abs(right - left)
    }

    /** `abs(bottom - top)`. */
    function GetHeight(): (h: int)
      reads this
      ensures h >= 0 && (h == bottom - top || h == top - bottom)
    {
      Abs(bottom - top)
    }

    /** The bounds `ClampLL(x1, y1, x2, y2)` establishes (lower-left origin: `top` is
        the upper edge, at most `y1`; `bottom` at least `y2`). */
    predicate ClampedLL(x1: int, y1: int, x2: int, y2: int)
      reads this
    {
      left >= x1 && right <= x2 && top <= y1 && bottom >= y2
    }

    /** The bounds `ClampUL(x1, y1, x2, y2)` establishes (upper-left origin). */
    predicate ClampedUL(x1: int, y1: int, x2: int, y2: int)
      reads this
    {
      left >= x1 && right <= x2 && top >= y1 && bottom <= y2
    }

    /** `ClampLL`: each edge moves only if it is beyond its bound, and then onto it; a
        rectangle already within the bounds is left as it is. */
    method ClampLL(x1: int, y1: int, x2: int, y2: int)
      modifies this
      ensures left == (if old(left) < x1 then x1 else old(left))
      ensures right == (if old(right) > x2 then x2 else old(right))
      ensures top == (if old(top) > y1 then y1 else old(top))
      ensures bottom == (if old(bottom) < y2 then y2 else old(bottom))
      ensures ClampedLL(x1, y1, x2, y2)
      ensures old(ClampedLL(x1, y1, x2, y2)) ==> unchanged(this)
    {
      if left < x1 { left := x1; }
      if right > x2 { right := x2; }
      if top > y1 { top := y1; }
      if bottom < y2 { bottom := y2; }
    }

    /** `ClampUL`: the same for an upper-left origin, where `top` is raised to at least
        `y1` and `bottom` lowered to at most `y2`. */
    method ClampUL(x1: int, y1: int, x2: int, y2: int)
      modifies this
      ensures left == (if old(left) < x1 then x1 else old(left))
      ensures right == (if old(right) > x2 then x2 else old(right))
      ensures top == (if old(top) < y1 then y1 else old(top))
      ensures bottom == (if old(bottom) > y2 then y2 else old(bottom))
      ensures ClampedUL(x1, y1, x2, y2)
      ensures old(ClampedUL(x1, y1, x2, y2)) ==> unchanged(this)
    {
      if left < x1 { left := x1; }
      if right > x2 { right := x2; }
      if top < y1 { top := y1; }
      if bottom > y2 { bottom := y2; }
    }
  }

  /** Width and height do not depend on which of the two edges is named first. */
  lemma ExtentUnderSwap(r: Rectangle, s: Rectangle)
    requires s.left == r.right && s.right == r.left && s.top == r.bottom && s.bottom == r.top
    ensures s.GetWidth() == r.GetWidth() && s.GetHeight() == r.GetHeight()
  {
  }
}
