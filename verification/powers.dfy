/** Integer powers of real numbers.

    The library raises scales to a power with the host platform's floating
    power function. This model keeps to integer exponents, where that power is
    repeated multiplication (and its reciprocal for negative exponents), and
    works over exact reals.
 */
module Powers {

  /** A real that is not zero: every conversion scale is one, since a
      converter must be invertible. */
  type NonZeroReal = r: real | r != 0.0 witness 1.0

  /** s raised to a natural exponent, by repeated multiplication. */
  function Pow(s: real, n: nat): (r: real)
    ensures s != 0.0 ==> r != 0.0
    ensures s == 1.0 ==> r == 1.0
  {
    if n == 0 then 1.0 else s * Pow(s, n - 1)
  }

  /** s raised to an integer exponent; a negative exponent takes the
      reciprocal of the matching positive power. */
  function IPow(s: NonZeroReal, n: int): (r: NonZeroReal)
    ensures s == 1.0 ==> r == 1.0
  {
    if n >= 0 then Pow(s, n) else 1.0 / Pow(s, -n)
  }

  lemma IPowOne(s: NonZeroReal)
    ensures IPow(s, 1) == s
  {
    assert Pow(s, 0) == 1.0;
  }

  /** The small exponents that unit definitions use. */
  lemma IPowSmall(s: NonZeroReal)
    ensures IPow(s, 2) == s * s
    ensures IPow(s, -1) == 1.0 / s
    ensures IPow(s, -2) == 1.0 / (s * s)
  {
    assert Pow(s, 1) == s * Pow(s, 0);
    assert Pow(s, 2) == s * Pow(s, 1);
  }
}
