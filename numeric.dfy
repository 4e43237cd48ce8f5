/** The two conversions the calculator applies to its quotients, stated on
    exact rationals n / d: Python's `round(..., 2)` (taken to hundredths, so
    here to whole units of a hundredth) and `int()` of a float. */
module Numeric {

  function Abs(x: int): nat {
    if x < 0 then -x else x
  }

  /** Euclidean division by a positive divisor, written as a product. */
  lemma DivMod(n: int, d: int)
    requires d > 0
    ensures n == (n / d) * d + n % d && 0 <= n % d < d
    ensures (n / d + 1) * d == (n / d) * d + d
  {
  }

  /** The integer nearest to n / d, a tie going to the even neighbour
      (Python's `round` on an exact value). */
  function Round(n: int, d: int): (r: int)
    requires d != 0
    ensures 2 * Abs(r * d - n) <= Abs(d)
    ensures 2 * Abs(r * d - n) == Abs(d) ==> r % 2 == 0
  {
    if d < 0 then
      var r := RoundPositive(-n, -d);
      assert r * d - n == -(r * -d - -n);
      r
    else RoundPositive(n, d)
  }

  function RoundPositive(n: int, d: int): (r: int)
    requires d > 0
    ensures 2 * Abs(r * d - n) <= d
    ensures 2 * Abs(r * d - n) == d ==> r % 2 == 0
  {
    var q, m := n / d, n % d;
    DivMod(n, d);
    var below, above := q * d - n, (q + 1) * d - n;
    assert below == -m && above == d - m;
    if 2 * m < d then q
    else if 2 * m > d then q + 1
    else if q % 2 == 0 then q
    else q + 1
  }

  /** n / d truncated toward zero (Python's `int()` of the quotient). */
  function TruncDiv(n: int, d: int): (r: int)
    requires d != 0
    ensures Abs(r) * Abs(d) <= Abs(n) < (Abs(r) + 1) * Abs(d)
    ensures (n < 0) == (d < 0) ==> r >= 0
    ensures (n < 0) != (d < 0) ==> r <= 0
  {
    var q := Abs(n) / Abs(d);
    DivMod(Abs(n), Abs(d));
    assert q >= 0;
    if (n < 0) == (d < 0) then q else -q
  }

  /** With a positive divisor the truncated quotient is negative exactly
      when n <= -d and positive exactly when n >= d. */
  lemma TruncDivSign(n: int, d: int)
    requires d > 0
    ensures TruncDiv(n, d) < 0 <==> n <= -d
    ensures TruncDiv(n, d) > 0 <==> n >= d
  {
  }
}
