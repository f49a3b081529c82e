/**
  Facts about Dafny's own division and remainder on integers, which are
  Euclidean: for a non-zero divisor b the remainder lies in [0, |b|). The
  proofs about the metronome's counters lean on them to identify a quotient
  and remainder from a decomposition a == q * b + r.
 */
module DivMod {

  function Abs(x: int): (r: int)
    ensures 0 <= r && (r == x || r == -x)
  {
    if x < 0 then -x else x
  }

  /** A non-zero multiple of b is at least |b| in magnitude. */
  lemma NonZeroMultipleIsLarge(x: int, b: int)
    ensures x != 0 ==> Abs(x * b) >= Abs(b)
  {
    if x != 0 {
      var ax, ab := Abs(x), Abs(b);
      AbsOfProduct(x, b);
      assert ax * ab == (ax - 1) * ab + ab;
      NonNegativeProduct(ax - 1, ab);
    }
  }

  lemma AbsOfProduct(x: int, b: int)
    ensures Abs(x * b) == Abs(x) * Abs(b)
  {
    if x < 0 && b < 0 {
      assert x * b == (-x) * (-b);
    } else if x < 0 {
      assert x * b == -((-x) * b);
    } else if b < 0 {
      assert x * b == -(x * (-b));
    }
  }

  lemma NonNegativeProduct(p: int, q: int)
    requires 0 <= p && 0 <= q
    ensures 0 <= p * q
  {
  }

  /** A product x * b whose magnitude is below |b| has x == 0. */
  lemma SmallMultipleIsZero(x: int, b: int)
    requires b != 0
    requires -Abs(b) < x * b < Abs(b)
    ensures x == 0
  {
    NonZeroMultipleIsLarge(x, b);
  }

  /**
    Dafny's quotient and remainder are the unique q and r with a == q * b + r
    and 0 <= r < |b|.
   */
  lemma {:induction false} DivModUnique(a: int, b: int, q: int, r: int)
    requires b != 0
    requires a == q * b + r && 0 <= r < Abs(b)
    ensures a / b == q && a % b == r
  {
    var q0, r0 := a / b, a % b;
    assert q0 * b + r0 == a;
    assert (q - q0) * b == r0 - r;
    SmallMultipleIsZero(q - q0, b);
  }

  lemma MultipleHasNoRemainder(k: int, b: int)
    requires b != 0
    ensures (k * b) % b == 0
  {
    DivModUnique(k * b, b, k, 0);
  }
}
