/** Facts about multiplication and division that the solver needs to be told. */
module Arith {

  lemma MulMonotone(d: int, a: int, b: int)
    requires d >= 0 && a <= b
    ensures d * a <= d * b
  {
    assert d * (b - a) >= 0;
  }

  lemma EuclidUnique(d: int, q: int, r: int, q': int, r': int)
    requires 0 <= r < d && 0 <= r' < d && d * q + r == d * q' + r'
    ensures q == q' && r == r'
  {
    var k := q - q';
    assert d * k == d * q - d * q';
    if k >= 1 {
      MulMonotone(d, 1, k);
    } else if k <= -1 {
      MulMonotone(d, k, -1);
    }
  }

  lemma DivUnique(x: int, d: int, q: int, r: int)
    requires d > 0 && 0 <= r < d && x == d * q + r
    ensures x / d == q && x % d == r
  {
    EuclidUnique(d, q, r, x / d, x % d);
  }

  /** n * b, by repeated addition: a product the solver does not try to be clever about. */
  function Times(n: nat, b: nat): (p: nat)
  {
    if n == 0 then 0 else b + Times(n - 1, b)
  }

  lemma {:induction false} TimesIsProduct(n: nat, b: nat)
    ensures Times(n, b) == n * b
  {
    if n > 0 {
      TimesIsProduct(n - 1, b);
    }
  }

  /** a / b, by repeated subtraction, for the same reason. */
  function Quot(a: nat, b: nat): nat
    requires b > 0
  {
    if a < b then 0 else 1 + Quot(a - b, b)
  }

  // a % b
  function Rem(a: nat, b: nat): (r: nat)
    requires b > 0
    ensures r < b
  {
    if a < b then a else Rem(a - b, b)
  }

  lemma {:induction false} QuotIsDivision(a: nat, b: nat)
    requires b > 0
    ensures Quot(a, b) == a / b && Rem(a, b) == a % b
    ensures a == Times(Quot(a, b), b) + Rem(a, b)
  {
    if a < b {
      DivUnique(a, b, 0, a);
    } else {
      QuotIsDivision(a - b, b);
      assert a == b * ((a - b) / b + 1) + (a - b) % b;
      DivUnique(a, b, (a - b) / b + 1, (a - b) % b);
    }
  }

  lemma {:induction false} RemOf(q: nat, n: nat, x: nat)
    requires x < n
    ensures Rem(Times(q, n) + x, n) == x
  {
    if q > 0 {
      RemOf(q - 1, n, x);
    }
  }

  // i, i + 1, ..., i + n - 1 are different modulo n ...
  lemma RemInjective(i: nat, j: nat, j': nat, n: nat)
    requires j < j' < n
    ensures Rem(i + j, n) != Rem(i + j', n)
  {
    QuotIsDivision(i + j, n);
    QuotIsDivision(i + j', n);
    var q, q' := Quot(i + j, n), Quot(i + j', n);
    if q < q' {
      TimesMonotone(q + 1, q', n);
    } else if q' < q {
      TimesMonotone(q' + 1, q, n);
    }
  }

  // ... and so reach every remainder.
  lemma RemOnto(i: nat, x: nat, n: nat) returns (j: nat)
    requires x < n
    ensures j < n && Rem(i + j, n) == x
  {
    QuotIsDivision(i, n);
    var q, r := Quot(i, n), Rem(i, n);
    if x >= r {
      j := x - r;
      RemOf(q, n, x);
    } else {
      j := x + n - r;
      RemOf(q + 1, n, x);
    }
  }

  lemma {:induction false} RemNext(a: nat, n: nat)
    requires n > 0
    ensures Rem(a + 1, n) == if Rem(a, n) == n - 1 then 0 else Rem(a, n) + 1
  {
    if a >= n {
      RemNext(a - n, n);
    }
  }

  // What is equal modulo n stays so when the same is added, and only then.
  lemma {:induction false} RemCancel(a: nat, b: nat, k: nat, n: nat)
    requires n > 0
    ensures Rem(a + k, n) == Rem(b + k, n) <==> Rem(a, n) == Rem(b, n)
  {
    if k > 0 {
      RemCancel(a, b, k - 1, n);
      RemNext(a + k - 1, n);
      RemNext(b + k - 1, n);
    }
  }

  lemma {:induction false} QuotAtLeast(a: nat, b: nat, q: nat)
    requires b > 0 && Times(q, b) <= a
    ensures Quot(a, b) >= q
  {
    if q > 0 {
      QuotAtLeast(a - b, b, q - 1);
    }
  }

  lemma {:induction false} TimesTimes(a: nat, b: nat, c: nat)
    ensures Times(Times(a, b), c) == Times(a, Times(b, c))
  {
    if a > 0 {
      TimesTimes(a - 1, b, c);
      TimesAdd(b, Times(a - 1, b), c);
    }
  }

  lemma {:induction false} TimesAdd(a: nat, b: nat, c: nat)
    ensures Times(a + b, c) == Times(a, c) + Times(b, c)
  {
    if a > 0 {
      TimesAdd(a - 1, b, c);
      assert a - 1 + b == a + b - 1;
    }
  }

  lemma {:induction false} TimesMonotone(n: nat, m: nat, b: nat)
    requires n <= m
    ensures Times(n, b) <= Times(m, b)
  {
    if n < m {
      TimesMonotone(n, m - 1, b);
    }
  }

  lemma DivNonneg(x: nat, d: nat)
    requires d > 0
    ensures x / d >= 0
  {
    if x / d < 0 {
      MulMonotone(d, x / d, -1);
    }
  }

  // Counting modulo n wraps at n - 1.
  lemma NextMod(x: nat, n: nat)
    requires n > 0
    ensures (x + 1) % n == if x % n == n - 1 then 0 else x % n + 1
  {
    var q, r := x / n, x % n;
    if r == n - 1 {
      assert x + 1 == n * (q + 1) + 0;
      DivUnique(x + 1, n, q + 1, 0);
    } else {
      DivUnique(x + 1, n, q, r + 1);
    }
  }

  lemma SmallMod(x: nat, n: nat)
    requires x < n
    ensures x % n == x
  {
  }
}
