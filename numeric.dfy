/** Numeric building blocks shared by the model: an optional value, C++
    integer division (which truncates toward zero, unlike Dafny's Euclidean
    `/`), and IEEE doubles seen as exact reals that may be NaN. */
module Numeric {

  datatype Option<T> = None | Some(value: T) {
    function GetOr(default: T): T {
      match this
      case Some(v) => v
      case None => default
    }
  }

  /** C++ `a / b` on integers for a positive divisor: the quotient is
      truncated toward zero. */
  function TDiv(a: int, b: int): (q: int)
    requires b > 0
    ensures a >= 0 ==> q * b <= a < q * b + b
    ensures a < 0 ==> q * b - b < a <= q * b
  {
    if a >= 0 then a / b else -((-a) / b)
  }

  /** C++ `a % b` for a positive divisor: the remainder has the sign of `a`. */
  function TMod(a: int, b: int): (r: int)
    requires b > 0
    ensures a >= 0 ==> 0 <= r < b
    ensures a < 0 ==> -b < r <= 0
  {
    a - TDiv(a, b) * b
  }

  /** A C++ conversion from double to int: truncation toward zero. */
  function TruncToInt(x: real): (n: int)
    ensures x >= 0.0 ==> n as real <= x < n as real + 1.0
    ensures x < 0.0 ==> n as real - 1.0 < x <= n as real
  {
    if x >= 0.0 then x.Floor else -((-x).Floor)
  }

  function Abs(x: real): (r: real)
    ensures r >= 0.0 && (r == x || r == -x)
  {
    if x < 0.0 then -x else x
  }

  function IntAbs(x: int): (r: nat)
    ensures r == x || r == -x
  {
    if x < 0 then -x else x
  }

  /** C's `fmod(x, 360.0)`: `x` minus a whole number of turns, the number
      of turns being `x / 360` truncated toward zero, so the result keeps the
      sign of `x`. */
  function FMod360(x: real): (r: real)
    ensures x >= 0.0 ==> 0.0 <= r < 360.0
    ensures x < 0.0 ==> -360.0 < r <= 0.0
    ensures (x - r) / 360.0 == ((x - r) / 360.0).Floor as real
  {
    x - TruncToInt(x / 360.0) as real * 360.0
  }

  /** A double: a finite value or NaN. Infinities are not modelled. */
  datatype Double = Num(r: real) | NaN

  function Add(a: Double, b: Double): (c: Double)
    ensures c.Num? <==> a.Num? && b.Num?
  {
    if a.Num? && b.Num? then Num(a.r + b.r) else NaN
  }

  function Sub(a: Double, b: Double): (c: Double)
    ensures c.Num? <==> a.Num? && b.Num?
  {
    if a.Num? && b.Num? then Num(a.r - b.r) else NaN
  }

  function Scale(k: real, a: Double): (c: Double)
    ensures c.Num? <==> a.Num?
  {
    if a.Num? then Num(k * a.r) else NaN
  }

  /** The IEEE comparison `a < b`: false whenever either side is NaN. */
  predicate Less(a: Double, b: Double) {
    a.Num? && b.Num? && a.r < b.r
  }
}
