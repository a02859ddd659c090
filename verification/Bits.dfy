/**
 Bitwise masking of ring-buffer positions. The deque keeps its capacity a power of two so that
 a bitwise "and" with capacity - 1 can stand for the modulus; this module says what that "and"
 computes and proves that it is the modulus.
 */
module Bits {

  /** Two's complement "x & y" for a non-negative y; x may be negative. */
  function And(x: int, y: nat): nat
    decreases y
  {
    if y == 0 then 0
    else (if x % 2 == 1 && y % 2 == 1 then 1 else 0) + 2 * And(x / 2, y / 2)
  }

  predicate IsPowerOfTwo(n: int)
    decreases n
  {
    n == 1 || (n > 1 && n % 2 == 0 && IsPowerOfTwo(n / 2))
  }

  lemma PowerDoubles(n: int)
    requires IsPowerOfTwo(n)
    ensures IsPowerOfTwo(2 * n)
  {
    assert (2 * n) / 2 == n;
  }

  lemma {:induction false} PowerHalves(a: int, b: int)
    requires IsPowerOfTwo(a) && IsPowerOfTwo(b) && a > b
    ensures IsPowerOfTwo(a / 2) && a / 2 >= b
    decreases a
  {
    if b > 1 {
      PowerHalves(a / 2, b / 2);
    }
  }

  lemma PowerDividesByFour(n: int)
    requires IsPowerOfTwo(n) && n >= 4
    ensures n % 4 == 0
  {
    assert (n / 2) % 2 == 0;
  }

  lemma MultipleAtLeast(n: int, d: int)
    requires n > 0 && d >= 1
    ensures n * d >= n
  {
  }

  lemma Distribute(n: int, a: int, b: int)
    ensures n * (a - b) == n * a - n * b
  {
  }

  lemma QuotientUnique(x: int, n: int, q: int, r: int)
    requires n > 0 && x == n * q + r && 0 <= r < n
    ensures x % n == r
  {
    var k := x / n;
    Distribute(n, q, k);
    Distribute(n, k, q);
    if q > k {
      MultipleAtLeast(n, q - k);
    } else if q < k {
      MultipleAtLeast(n, k - q);
    }
  }

  lemma ModulusOfDouble(x: int, m: int)
    requires m > 0
    ensures x % (2 * m) == x % 2 + 2 * ((x / 2) % m)
  {
    var q, r := (x / 2) / m, (x / 2) % m;
    assert x / 2 == m * q + r;
    assert x == (2 * m) * q + (x % 2 + 2 * r) by {
      assert x == 2 * (x / 2) + x % 2;
      assert 2 * (m * q) == (2 * m) * q;
    }
    QuotientUnique(x, 2 * m, q, x % 2 + 2 * r);
  }

  /** Masking with n - 1 is reduction modulo n, for negative positions too. */
  lemma {:induction false} MaskIsModulus(x: int, n: int)
    requires IsPowerOfTwo(n)
    ensures And(x, n - 1) == x % n
    decreases n
  {
    if n > 1 {
      var m := n / 2;
      assert (n - 1) % 2 == 1 && (n - 1) / 2 == m - 1;
      MaskIsModulus(x / 2, m);
      ModulusOfDouble(x, m);
    }
  }

  lemma {:induction false} AndSelf(x: nat)
    ensures And(x, x) == x
  {
    if x > 0 {
      AndSelf(x / 2);
    }
  }

  /** Masking n itself with n - 1 leaves nothing only for a power of two. */
  lemma {:induction false} MaskOfItself(n: nat)
    requires n > 0 && !IsPowerOfTwo(n)
    ensures And(n, n - 1) > 0
  {
    if n % 2 == 1 {
      assert (n - 1) / 2 == n / 2;
      AndSelf(n / 2);
    } else {
      assert (n - 1) / 2 == n / 2 - 1;
      MaskOfItself(n / 2);
    }
  }

  /** Powers of two are exactly the capacities for which masking is reduction modulo the capacity. */
  lemma MaskNeedsPowerOfTwo(n: nat)
    requires n > 0
    ensures IsPowerOfTwo(n) <==> forall x :: And(x, n - 1) == x % n
  {
    if IsPowerOfTwo(n) {
      forall x
        ensures And(x, n - 1) == x % n
      {
        MaskIsModulus(x, n);
      }
    } else {
      MaskOfItself(n);
      QuotientUnique(n, n, 1, 0);
    }
  }

  /** On positions one lap around, the masked position needs no division. */
  lemma MaskOneLap(x: int, n: int)
    requires IsPowerOfTwo(n) && -n <= x < 2 * n
    ensures And(x, n - 1) == if x < 0 then x + n else if x < n then x else x - n
  {
    MaskIsModulus(x, n);
    if x < 0 {
      QuotientUnique(x, n, -1, x + n);
    } else if x < n {
      QuotientUnique(x, n, 0, x);
    } else {
      QuotientUnique(x, n, 1, x - n);
    }
  }
}
