/** Go's `int64`: two's-complement wrap-around and division truncating toward zero. */
module Int64 {

  const MIN: int := -0x8000_0000_0000_0000
  const MAX: int := 0x7fff_ffff_ffff_ffff
  const TWO_64: int := 0x1_0000_0000_0000_0000

  predicate Fits(x: int) {
    MIN <= x <= MAX
  }

  /** The value a 64-bit register holds after an operation whose exact result is `x`. */
  function Wrap(x: int): (r: int)
    ensures Fits(r)
    ensures Fits(x) ==> r == x
    ensures (r - x) % TWO_64 == 0
  {
    (x - MIN) % TWO_64 + MIN
  }

  /** `Wrap` is the only 64-bit value congruent to `x`. */
  lemma WrapUnique(x: int, r: int)
    requires Fits(r) && (r - x) % TWO_64 == 0
    ensures Wrap(x) == r
  {
  }

  function TruncDiv(x: int, y: int): int
    requires y > 0
  {
    if x >= 0 then x / y else -((-x) / y)
  }

  function TruncMod(x: int, y: int): int
    requires y > 0
  {
    if x >= 0 then x % y else -((-x) % y)
  }

  /** Wrapping after every step of `sign * (whole * 100 + frac)` is wrapping once at the end. */
  lemma WrapMinor(whole: int, frac: int, sign: int)
    requires sign == 1 || sign == -1
    ensures Wrap(sign * Wrap(Wrap(whole * 100) + frac)) == Wrap(sign * (whole * 100 + frac))
  {
    WrapUnique(whole * 100 + frac, Wrap(Wrap(whole * 100) + frac));
    WrapUnique(sign * (whole * 100 + frac), Wrap(sign * Wrap(Wrap(whole * 100) + frac)));
  }
}
