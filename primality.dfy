/** `es_primo`: a primality check that first rejects arguments that are not
    integers, then tries 2 and the odd divisors up to the square root. */
module Primality {
  import opened Outcomes

  /** The Python value handed to the check, as far as the check tells values
      apart: an `int`, a `bool` (a subclass of `int` in Python, rejected
      first), or anything else that is not a number (a string, None, a list,
      a dict). */
  datatype Value = Int(n: int) | Bool(b: bool) | Other

  const BoolMessage: string := "El valor no puede ser booleano."
  const NotIntegerMessage: string := "El valor debe ser un número entero."

  /** The reference definition: at least 2 and no divisor strictly between 1
      and itself. */
  predicate IsPrime(n: int) {
    n >= 2 && forall d :: 2 <= d < n ==> n % d != 0
  }

  /** The integer square root, standing for `int(num**0.5)`. */
  function IntSqrt(n: nat): (r: nat)
    ensures r * r <= n < (r + 1) * (r + 1)
  {
    if n == 0 then 0
    else
      var s := IntSqrt(n - 1);
      if (s + 1) * (s + 1) <= n then s + 1 else s
  }

  // ------------------------------------------------- arithmetic helpers

  lemma DivMod(n: int, d: int)
    requires d > 0
    ensures n == d * (n / d) + n % d && 0 <= n % d < d
  {
  }

  lemma MulMonotone(a: int, b: int, c: int)
    ensures a <= b && c >= 0 ==> a * c <= b * c
  {
  }

  lemma Distrib(e: int, a: int, b: int)
    ensures e * a - e * b == e * (a - b)
  {
  }

  /** The remainder is fixed by any quotient-remainder decomposition. */
  lemma ModUnique(y: int, e: int, q: int, m: int)
    requires e > 0 && y == e * q + m && 0 <= m < e
    ensures y % e == m
  {
    var q', m' := y / e, y % e;
    DivMod(y, e);
    Distrib(e, q, q');
    MulMonotone(1, q - q', e);
    MulMonotone(1, q' - q, e);
    assert e * (q - q') == m' - m;
    assert q == q';
  }

  /** The trial divisors step over the even numbers. */
  lemma ParityStep(i: int)
    requires i % 2 == 1
    ensures (i + 1) % 2 == 0 && (i + 2) % 2 == 1
  {
    DivMod(i, 2);
    ModUnique(i + 1, 2, i / 2 + 1, 0);
    ModUnique(i + 2, 2, i / 2 + 1, 1);
  }

  /** An odd number has no even divisor. */
  lemma OddHasNoEvenDivisor(n: int, d: int)
    requires n % 2 != 0 && d > 0 && d % 2 == 0
    ensures n % d != 0
  {
    var q, k := n / d, d / 2;
    DivMod(n, d);
    DivMod(d, 2);
    assert d == 2 * k;
    assert n == 2 * (k * q) + n % d;
    if n % d == 0 {
      ModUnique(n, 2, k * q, 0);
    }
  }

  /** A divisor `d` of `n` with `2 <= d < n` has a co-divisor `n / d` that is
      at least 2 and divides `n` as well. */
  lemma CoDivisor(n: int, d: int)
    requires 2 <= d < n && n % d == 0
    ensures d * (n / d) == n && n / d >= 2 && n % (n / d) == 0
  {
    var e := n / d;
    DivMod(n, d);
    assert n == d * e;
    MulMonotone(e, 1, d);
    assert e >= 2;
    ModUnique(n, e, d, 0);
  }

  /** Two factors of a number below `(r + 1)^2` cannot both exceed `r`. */
  lemma SmallFactor(n: int, r: nat, d: int, e: int)
    requires d * e == n < (r + 1) * (r + 1) && d >= 0 && e >= 0
    ensures d <= r || e <= r
  {
    MulMonotone(r + 1, d, e);
    MulMonotone(r + 1, e, r + 1);
  }

  /** A divisor found by the trial loop, between 3 and the square root,
      shows that `n` is not prime. */
  lemma DivisorBelowSqrt(n: int, r: nat, i: int)
    requires r * r <= n && 3 <= i <= r && n % i == 0
    ensures !IsPrime(n)
  {
    MulMonotone(i, r, i);
    MulMonotone(i, r, r);
    MulMonotone(3, i, i);
    assert 2 <= i < n;
  }

  // ------------------------------------------------------------ the check

  /** Trial division up to the integer square root decides primality: when
      no number from 2 to `r` divides `n`, nothing strictly between 1 and `n`
      does. */
  lemma NoDivisorUpToSqrt(n: int, r: nat)
    requires n >= 2 && r * r <= n < (r + 1) * (r + 1)
    requires forall d :: 2 <= d <= r ==> n % d != 0
    ensures IsPrime(n)
  {
    forall d | 2 <= d < n ensures n % d != 0 {
      if n % d == 0 {
        CoDivisor(n, d);
        SmallFactor(n, r, d, n / d);
      }
    }
  }

  /** `es_primo`: TypeError for a boolean or a non-number; for an integer,
      whether it is prime. Trial division stops at the integer square root. */
  method EsPrimo(v: Value) returns (r: Result<bool>)
    ensures v.Bool? ==> r == Err(TypeError(BoolMessage))
    ensures v.Other? ==> r == Err(TypeError(NotIntegerMessage))
    ensures v.Int? ==> r == Ok(IsPrime(v.n))
    ensures v.Int? && v.n < 2 ==> r == Ok(false)
    ensures v == Int(2) ==> r == Ok(true)
    ensures v.Int? && v.n > 2 && v.n % 2 == 0 ==> r == Ok(false)
  {
    match v
    case Bool(_) =>
      return Err(TypeError(BoolMessage));
    case Other =>
      return Err(TypeError(NotIntegerMessage));
    case Int(num) =>
      if num < 2 {
        return Ok(false);
      }
      if num == 2 {
        return Ok(true);
      }
      if num % 2 == 0 {
        assert !IsPrime(num) by { assert 2 <= 2 < num && num % 2 == 0; }
        return Ok(false);
      }
      var bound := IntSqrt(num);
      var i := 3;
      while i <= bound
        invariant 3 <= i && i % 2 == 1
        invariant forall d :: 2 <= d < i ==> num % d != 0
      {
        if num % i == 0 {
          DivisorBelowSqrt(num, bound, i);
          return Ok(false);
        }
        ParityStep(i);
        OddHasNoEvenDivisor(num, i + 1);
        i := i + 2;
      }
      NoDivisorUpToSqrt(num, bound);
      return Ok(true);
  }
}
