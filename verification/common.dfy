/**
  Small shared vocabulary: the Option/Result wrappers used for error paths,
  Qt's `qBound` for reals and ints, and C++'s truncating double-to-int cast.
 */
module Common {

  datatype Option<+T> = None | Some(value: T)

  datatype Result<+T, +E> = Ok(value: T) | Err(error: E)

  function Min(a: int, b: int): int { if a < b then a else b }

  function Max(a: int, b: int): int { if a < b then b else a }

  /** Qt's `qBound(lo, v, hi)`, which is `qMax(lo, qMin(hi, v))`; when
      `lo > hi` it yields `lo`. */
  function Bound(lo: real, v: real, hi: real): (r: real)
    ensures lo <= hi ==> lo <= r <= hi
    ensures lo <= v <= hi ==> r == v
    ensures hi < lo ==> r == lo
    ensures r == lo || r == v || r == hi
  {
    var inner := if hi < v then hi else v;
    if lo < inner then inner else lo
  }

  /** `qBound` on `int`. */
  function IntBound(lo: int, v: int, hi: int): (r: int)
    ensures lo <= hi ==> lo <= r <= hi
    ensures lo <= v <= hi ==> r == v
    ensures hi < lo ==> r == lo
  {
    var inner := if hi < v then hi else v;
    if lo < inner then inner else lo
  }

  /** `static_cast<int>(x)` for a double: rounds toward zero (range overflow
      is not modelled). */
  function Trunc(x: real): (r: int)
    ensures 0.0 <= x ==> 0 <= r && r as real <= x < r as real + 1.0
    ensures x < 0.0 ==> r <= 0 && r as real - 1.0 < x <= r as real
  {
    if 0.0 <= x then x.Floor else -((-x).Floor)
  }

  /** Truncation never moves a value away from zero, so it is monotone. */
  lemma TruncMonotone(x: real, y: real)
    requires x <= y
    ensures Trunc(x) <= Trunc(y)
  {
    if 0.0 <= x {
      assert x.Floor <= y.Floor;
    } else if y < 0.0 {
      assert (-y).Floor <= (-x).Floor;
    }
  }
}
