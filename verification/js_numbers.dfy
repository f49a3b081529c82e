/**
  The slice of JavaScript number semantics that the metronome relies on.

  A JavaScript `number` is either NaN, one of the two infinities, or a finite
  value; finite values are idealised here as mathematical reals (no binary
  rounding). Integer-valued quantities (beat counts, measure numbers) are
  modelled as `int`, and JavaScript's `%` on them is the truncated remainder
  whose sign follows the dividend, which differs from Dafny's Euclidean `%`
  on negative dividends.
 */
module JsNumbers {
  import opened DivMod

  /** A JavaScript number. */
  datatype Number = NaN | PosInfinity | NegInfinity | Finite(value: real)

  /** `isNaN(x)` */
  predicate IsNaN(x: Number) {
    x.NaN?
  }

  /** `x < c` for a number x and a finite constant c: false whenever x is NaN. */
  predicate LessThan(x: Number, c: real) {
    match x
    case NaN => false
    case PosInfinity => false
    case NegInfinity => true
    case Finite(v) => v < c
  }

  /** `x > c` for a number x and a finite constant c: false whenever x is NaN. */
  predicate GreaterThan(x: Number, c: real) {
    match x
    case NaN => false
    case PosInfinity => true
    case NegInfinity => false
    case Finite(v) => v > c
  }

  /** `Math.floor(x)` for a finite x: the greatest integer not above x. */
  function Floor(x: real): (r: int)
    ensures r as real <= x < r as real + 1.0
  {
    x.Floor
  }

  /**
    `a % b` on integers with b != 0: the remainder of the division truncated
    toward zero, so it carries the sign of the dividend.
   */
  function Rem(a: int, b: int): (r: int)
    requires b != 0
    ensures 0 <= a ==> 0 <= r < Abs(b)
    ensures a < 0 ==> -Abs(b) < r <= 0
  {
    if a >= 0 then a % b else -((-a) % b)
  }

  /**
    Together with the sign and size bounds of Rem's contract this pins the
    remainder down: a and Rem(a, b) differ by a multiple of b.
   */
  lemma RemDiffersByMultiple(a: int, b: int)
    requires b != 0
    ensures (a - Rem(a, b)) % b == 0
  {
    if a >= 0 {
      assert a - Rem(a, b) == (a / b) * b;
      MultipleHasNoRemainder(a / b, b);
    } else {
      assert a - Rem(a, b) == -((-a) - (-a) % b);
      assert (-a) - (-a) % b == ((-a) / b) * b;
      assert a - Rem(a, b) == (-((-a) / b)) * b;
      MultipleHasNoRemainder(-((-a) / b), b);
    }
  }

  /** `a % b === k` on integers; `a % 0` is NaN, which equals nothing. */
  predicate RemIs(a: int, b: int, k: int) {
    b != 0 && Rem(a, b) == k
  }

  /** On a non-negative dividend and a positive divisor the two remainders agree. */
  lemma RemOfNatural(a: int, b: int)
    requires 0 <= a && 0 < b
    ensures Rem(a, b) == a % b
  {
  }
}
