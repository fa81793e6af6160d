/**
 * Rounding a pixel dimension to a multiple of a block size, as
 * `make_divisible_by_56` and `make_divisible_by_224` do with
 * `round(dimension / d) * d`.  Python's `round` on a float rounds to the
 * nearest integer and breaks ties towards the even one.
 */
module Rounding {

  function Abs(x: int): nat {
    if x < 0 then -x else x
  }

  function AbsReal(x: real): real {
    if x < 0.0 then -x else x
  }

  /** Python's `round(x)` for a number `x`: nearest integer, ties to even. */
  function RoundHalfEven(x: real): (r: int)
    ensures AbsReal(r as real - x) <= 0.5
    ensures AbsReal(r as real - x) == 0.5 ==> r % 2 == 0
  {
    var f := x.Floor;
    var frac := x - f as real;
    if frac < 0.5 then f
    else if frac > 0.5 then f + 1
    else if f % 2 == 0 then f
    else f + 1
  }

  /** The two clauses of RoundHalfEven's contract pin its result down. */
  lemma RoundHalfEvenUnique(x: real, r: int)
    requires AbsReal(r as real - x) <= 0.5
    requires AbsReal(r as real - x) == 0.5 ==> r % 2 == 0
    ensures r == RoundHalfEven(x)
  {
  }

  /**
   * The quotient rounded with Python's rule, on integers: with quotient `q`
   * and remainder `m` of `n` by `d`, below half way goes down, above goes
   * up, and exactly half way goes to the even one of `q` and `q + 1`.
   */
  function RoundedQuotient(n: int, d: int): (k: int)
    requires d > 0
    ensures k == n / d || k == n / d + 1
    ensures k == n / d <==> 2 * (n % d) < d || (2 * (n % d) == d && (n / d) % 2 == 0)
  {
    var q, m := n / d, n % d;
    if 2 * m < d then q
    else if 2 * m > d then q + 1
    else if q % 2 == 0 then q
    else q + 1
  }

  /** Rounding `n` to the nearest multiple of `d`, ties to the even quotient. */
  function RoundToMultiple(n: int, d: int): (r: int)
    requires d > 0
    ensures r % d == 0
    ensures 2 * Abs(r - n) <= d
    ensures 2 * Abs(r - n) == d ==> (r / d) % 2 == 0
  {
    var q, m := n / d, n % d;
    var k := RoundedQuotient(n, d);
    MultipleOf(k, d);
    assert n == q * d + m;
    assert k * d == q * d || k * d == q * d + d by {
      assert (q + 1) * d == q * d + d;
    }
    k * d
  }

  lemma MultipleOf(k: int, d: int)
    requires d > 0
    ensures (k * d) % d == 0 && (k * d) / d == k
  {
    var q, m := (k * d) / d, (k * d) % d;
    assert (k - q) * d == m by {
      assert k * d == q * d + m;
    }
    var e := k - q;
    if e >= 1 {
      assert false;
    } else if e <= -1 {
      assert false;
    }
  }

  /** `make_divisible_by_56` (scripts/downscale_image.py). */
  function MakeDivisibleBy56(dimension: int): (r: int)
    ensures r % 56 == 0
  {
    var k := RoundHalfEven(dimension as real / 56.0);
    MultipleOf(k, 56);
    k * 56
  }

  /** `make_divisible_by_224` (scripts/downscale_image.py). */
  function MakeDivisibleBy224(dimension: int): (r: int)
    ensures r % 224 == 0
  {
    var k := RoundHalfEven(dimension as real / 224.0);
    MultipleOf(k, 224);
    k * 224
  }

  /**
   * Rounding the real quotient `n / d` with Python's rule and multiplying
   * back is the integer rounding above.
   */
  lemma RoundQuotient(n: int, d: int)
    requires d > 0
    ensures RoundHalfEven(n as real / d as real) * d == RoundToMultiple(n, d)
  {
    var r := RoundToMultiple(n, d);
    var k := r / d;
    MultipleOf(k, d);
    assert r == k * d;
    var x := n as real / d as real;
    assert x * d as real == n as real;
    // k is within 1/2 of x because k*d is within d/2 of n
    assert (k as real - x) * d as real == (r - n) as real;
    DivideBound(k as real - x, d as real, (r - n) as real);
    RoundHalfEvenUnique(x, k);
  }

  lemma DivideBound(y: real, d: real, z: real)
    requires d > 0.0 && y * d == z
    requires 2.0 * AbsReal(z) <= d
    ensures AbsReal(y) <= 0.5
    ensures 2.0 * AbsReal(z) == d <==> AbsReal(y) == 0.5
  {
    var a := AbsReal(y);
    assert AbsReal(z) == a * d by {
      if y < 0.0 {
        assert z == -(a * d);
      }
    }
    var e := 2.0 * a - 1.0;
    assert e * d == 2.0 * AbsReal(z) - d;
    SignOfProduct(e, d);
  }

  lemma SignOfProduct(e: real, d: real)
    requires d > 0.0
    ensures e > 0.0 ==> e * d > 0.0
    ensures e < 0.0 ==> e * d < 0.0
  {
  }

  lemma DivisibleBy56IsNearest(dimension: int)
    ensures MakeDivisibleBy56(dimension) == RoundToMultiple(dimension, 56)
  {
    RoundQuotient(dimension, 56);
  }

  lemma DivisibleBy224IsNearest(dimension: int)
    ensures MakeDivisibleBy224(dimension) == RoundToMultiple(dimension, 224)
  {
    RoundQuotient(dimension, 224);
  }

  /**
   * No multiple of `d` is nearer to `n` than RoundToMultiple(n, d), and off
   * a tie every other multiple is strictly farther away.
   */
  lemma NearestMultiple(n: int, d: int, m: int)
    requires d > 0
    ensures Abs(RoundToMultiple(n, d) - n) <= Abs(m * d - n)
    ensures 2 * Abs(RoundToMultiple(n, d) - n) != d && m * d != RoundToMultiple(n, d)
            ==> Abs(RoundToMultiple(n, d) - n) < Abs(m * d - n)
  {
    var q, rem := n / d, n % d;
    var k := RoundedQuotient(n, d);
    var lo, hi := q * d, (q + 1) * d;
    assert n == lo + rem;
    assert hi == lo + d;
    var md := m * d;
    if m < q {
      MulStrict(m, q, d);
    } else if m > q + 1 {
      MulStrict(q + 1, m, d);
    }
    assert md <= lo - d || md == lo || md == hi || md >= hi + d;
  }

  lemma MulStrict(a: int, b: int, d: int)
    requires d > 0 && a < b
    ensures a * d + d <= b * d
  {
    assert (b - a - 1) * d >= 0;
    assert b * d == a * d + d + (b - a - 1) * d;
  }

  /** The two ties the source's rule decides: 112 goes down, 336 goes up. */
  lemma TiesGoToEven()
    ensures MakeDivisibleBy224(112) == 0
    ensures MakeDivisibleBy224(336) == 448
    ensures MakeDivisibleBy56(28) == 0
    ensures MakeDivisibleBy56(84) == 112
  {
  }

  /** A multiple of `d` is left where it is. */
  lemma RoundMultipleFixed(n: int, d: int)
    requires d > 0 && n % d == 0
    ensures RoundToMultiple(n, d) == n
  {
    var q := n / d;
    assert n == q * d;
    assert RoundedQuotient(n, d) == q;
  }

  /**
   * `make_divisible_by_224` gives 0 exactly on the dimensions from -112 to
   * 112: both ends are ties and go to the even quotient 0.
   */
  lemma DivisibleBy224IsZero(dimension: int)
    ensures MakeDivisibleBy224(dimension) == 0 <==> -112 <= dimension <= 112
  {
    DivisibleBy224IsNearest(dimension);
    var k := RoundedQuotient(dimension, 224);
    assert RoundToMultiple(dimension, 224) == k * 224;
    var q, m := dimension / 224, dimension % 224;
    assert dimension == q * 224 + m;
    if -112 <= dimension <= 112 {
      assert q == 0 || q == -1;
    } else if dimension > 112 {
      assert k >= 1;
    } else {
      assert k <= -1;
    }
  }
}
