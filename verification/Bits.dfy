/** Bit reversal: the order in which lib_mem.c uses the words of a line and the
    lines of a page, and the order in which lib_sched.c hands out processors. */
module Bits {
  import opened Arith

  function Pow2(n: nat): (p: nat)
    ensures p >= 1
  {
    if n == 0 then 1 else 2 * Pow2(n - 1)
  }

  ghost predicate IsPow2(x: int) {
    exists k: nat :: x == Pow2(k)
  }

  // x >> j
  function Shr(x: nat, j: nat): nat {
    DivNonneg(x, Pow2(j));
    x / Pow2(j)
  }

  // x & (1 << j)
  predicate TestBit(x: nat, j: nat) {
    Shr(x, j) % 2 == 1
  }

  // x | (1 << j)
  function SetBit(x: nat, j: nat): nat {
    if TestBit(x, j) then x else x + Pow2(j)
  }

  // The lowest n bits of x, in reverse.  Higher bits of x are dropped.
  function Rev(x: nat, n: nat): nat {
    if n == 0 then 0 else x % 2 * Pow2(n - 1) + Rev(x / 2, n - 1)
  }

  // floor(log2(x)), the number of times x can be halved before it reaches zero, less one.
  function Log2(x: nat): (k: nat)
    requires x > 0
    ensures Pow2(k) <= x < 2 * Pow2(k)
  {
    if x == 1 then 0 else 1 + Log2(x / 2)
  }

  lemma {:induction false} DivPow2(x: nat, j: nat)
    ensures x / Pow2(j + 1) == x / Pow2(j) / 2
  {
    var p := Pow2(j);
    var q, r := x / p, x % p;
    assert x == p * q + r && 0 <= r < p;
    var h, b := q / 2, q % 2;
    assert x == (2 * p) * h + (p * b + r) by {
      assert p * q == p * (2 * h) + p * b;
    }
    assert 0 <= p * b + r < 2 * p by {
      assert b == 0 || b == 1;
    }
    DivUnique(x, 2 * p, h, p * b + r);
  }

  lemma {:induction false} RevBound(x: nat, n: nat)
    ensures Rev(x, n) < Pow2(n)
  {
    if n > 0 {
      RevBound(x / 2, n - 1);
      BitBound(x % 2, Pow2(n - 1), Rev(x / 2, n - 1));
    }
  }

  lemma BitBound(b: nat, p: nat, r: nat)
    requires b <= 1 && r < p
    ensures b * p + r < 2 * p
  {
    if b == 0 {
      assert b * p == 0;
    }
  }

  // Only the lowest n bits matter.
  lemma {:induction false} RevDropsHighBits(x: nat, h: nat, n: nat)
    ensures Rev(x + h * Pow2(n), n) == Rev(x, n)
  {
    if n > 0 {
      var y := x + h * Pow2(n);
      assert y == x + 2 * (h * Pow2(n - 1));
      assert y / 2 == x / 2 + h * Pow2(n - 1);
      RevDropsHighBits(x / 2, h, n - 1);
    }
  }

  // The top bit of x becomes the lowest bit of the result.
  lemma {:induction false} RevTopBit(x: nat, b: nat, n: nat)
    requires n > 0 && x < Pow2(n - 1) && b <= 1
    ensures Rev(x + b * Pow2(n - 1), n) == 2 * Rev(x, n - 1) + b
  {
    if n == 1 {
      assert Rev(b, 1) == b % 2 * Pow2(0) + Rev(b / 2, 0);
    } else {
      var y := x + b * Pow2(n - 1);
      assert y == x + 2 * (b * Pow2(n - 2));
      assert y / 2 == x / 2 + b * Pow2(n - 2);
      RevTopBit(x / 2, b, n - 1);
      assert x % 2 * Pow2(n - 1) == 2 * (x % 2 * Pow2(n - 2));
    }
  }

  /** Reversing twice gives back the number: bit reversal is an involution on n-bit numbers. */
  lemma {:induction false} RevInvolution(x: nat, n: nat)
    requires x < Pow2(n)
    ensures Rev(Rev(x, n), n) == x
  {
    if n > 0 {
      RevBound(x / 2, n - 1);
      RevTopBit(Rev(x / 2, n - 1), x % 2, n);
      RevInvolution(x / 2, n - 1);
    }
  }

  // Bit k of x.
  lemma TestBitNext(x: nat, k: nat)
    requires k > 0
    ensures TestBit(x, k) == TestBit(x / 2, k - 1)
  {
    DivPow2(x, k - 1);
    HalfFirst(x, k - 1);
  }

  lemma {:induction false} HalfFirst(x: nat, j: nat)
    ensures x / Pow2(j) / 2 == x / 2 / Pow2(j)
    decreases j
  {
    if j > 0 {
      DivPow2(x, j - 1);
      DivPow2(x / 2, j - 1);
      HalfFirst(x, j - 1);
      DivPow2(x, j);
    }
  }

  /** Bit k of the result is bit n - 1 - k of the number. */
  lemma {:induction false} RevBit(x: nat, n: nat, k: nat)
    requires k < n
    ensures TestBit(Rev(x, n), k) == TestBit(x, n - 1 - k)
  {
    var r := Rev(x / 2, n - 1);
    RevBound(x / 2, n - 1);
    if k == n - 1 {
      TopBit(x % 2, r, n - 1);
      assert Shr(x, 0) == x;
    } else {
      RevBit(x / 2, n - 1, k);
      TestBitNext(x, n - 1 - k);
      LowBit(x % 2, r, n - 1, k);
    }
  }

  lemma TopBit(b: nat, r: nat, n: nat)
    requires b <= 1 && r < Pow2(n)
    ensures TestBit(b * Pow2(n) + r, n) == (b == 1)
  {
    DivUnique(b * Pow2(n) + r, Pow2(n), b, r);
  }

  // A bit added at the top leaves those below alone.
  lemma {:induction false} LowBit(b: nat, r: nat, n: nat, k: nat)
    requires k < n
    ensures TestBit(b * Pow2(n) + r, k) == TestBit(r, k)
    decreases k
  {
    var x := b * Pow2(n) + r;
    assert b * Pow2(n) == 2 * (b * Pow2(n - 1));
    if k == 0 {
      assert Shr(x, 0) == x && Shr(r, 0) == r;
    } else {
      assert x / 2 == b * Pow2(n - 1) + r / 2;
      LowBit(b, r / 2, n - 1, k - 1);
      TestBitNext(x, k);
      TestBitNext(r, k);
    }
  }

  lemma HalfProduct(d: nat, q: nat, d': nat, q': nat)
    requires (d == 2 * d' && q == q') || (d == d' && q == 2 * q')
    ensures 2 * (d' * q') == d * q
  {
  }

  // Reversing an m-bit number as an n-bit number only shifts it.
  lemma {:induction false} RevOfShort(x: nat, m: nat, n: nat)
    requires m <= n && x < Pow2(m)
    ensures Rev(x, n) == Rev(x, m) * Pow2(n - m)
  {
    if m < n {
      Pow2Monotone(m, n - 1);
      assert x + 0 * Pow2(n - 1) == x;
      RevTopBit(x, 0, n);
      RevOfShort(x, m, n - 1);
      HalfProduct(Rev(x, m), Pow2(n - m), Rev(x, m), Pow2(n - 1 - m));
    } else {
      assert Pow2(n - m) == 1;
    }
  }

  lemma {:induction false} Pow2Monotone(m: nat, n: nat)
    requires m <= n
    ensures Pow2(m) <= Pow2(n)
  {
    if m < n {
      Pow2Monotone(m, n - 1);
    }
  }

  lemma {:induction false} Pow2Add(m: nat, n: nat)
    ensures Pow2(m + n) == Pow2(m) * Pow2(n)
  {
    if n > 0 {
      Pow2Add(m, n - 1);
      assert m + n - 1 == m + (n - 1);
    }
  }

  lemma {:induction false} Log2OfPow2(n: nat)
    ensures Log2(Pow2(n)) == n
  {
    if n > 0 {
      Log2OfPow2(n - 1);
    }
  }

  /** Every positive divisor of a power of two is itself a power of two. */
  lemma {:induction false} DivisorOfPow2(d: nat, q: nat, n: nat)
    requires d * q == Pow2(n)
    ensures IsPow2(d)
  {
    if n == 0 {
      if d >= 2 && q >= 1 {
        MulMonotone(d, 1, q);
      }
      assert d == Pow2(0);
    } else if d % 2 == 0 {
      HalfProduct(d, q, d / 2, q);
      DivisorOfPow2(d / 2, q, n - 1);
      var k: nat :| d / 2 == Pow2(k);
      assert d == Pow2(k + 1);
    } else {
      if q % 2 == 1 {
        OddProduct(d, q);
      }
      HalfProduct(d, q, d, q / 2);
      DivisorOfPow2(d, q / 2, n - 1);
    }
  }

  lemma OddProduct(d: nat, q: nat)
    requires d % 2 == 1 && q % 2 == 1
    ensures d * q % 2 == 1
  {
    var e := d / 2;
    assert d * q == (2 * e + 1) * q == 2 * (e * q) + q;
  }

  // ---- The loop of words_initialize and reverse_bits --------------------------

  // After j bits of i have been moved to the top of w, what is left of i still has to be reversed.
  ghost predicate Rest(w: nat, i: nat, j: nat, nbits: nat)
    requires j <= nbits
  {
    w % Pow2(nbits - j) == 0 && w + Rev(Shr(i, j), nbits - j) == Rev(i, nbits)
  }

  lemma MoveBit(w: nat, i: nat, j: nat, nbits: nat)
    requires j < nbits && Rest(w, i, j, nbits)
    ensures Rest(if TestBit(i, j) then SetBit(w, nbits - j - 1) else w, i, j + 1, nbits)
  {
    DivPow2(i, j);
    FreeBit(w, nbits - j - 1);
    var x, n := Shr(i, j), nbits - j;
    assert Rev(x, n) == x % 2 * Pow2(n - 1) + Rev(x / 2, n - 1);
    if TestBit(i, j) {
      assert x % 2 * Pow2(n - 1) == Pow2(n - 1);
    } else {
      assert x % 2 * Pow2(n - 1) == 0;
    }
  }

  // Bits of w below bit n + 1 are clear: bit n can be set by adding Pow2(n).
  lemma FreeBit(w: nat, n: nat)
    requires w % Pow2(n + 1) == 0
    ensures !TestBit(w, n) && w % Pow2(n) == 0 && (w + Pow2(n)) % Pow2(n) == 0
  {
    var p := Pow2(n);
    var q := w / (2 * p);
    assert w == p * (2 * q) + 0;
    DivUnique(w, p, 2 * q, 0);
    assert w + p == p * (2 * q + 1) + 0;
    DivUnique(w + p, p, 2 * q + 1, 0);
  }

  /** Moves the bits of x one at a time; the same loop in words_initialize (lib_mem.c) and
      reverse_bits (lib_sched.c). */
  method ReverseBits(x: nat, nbits: nat) returns (r: nat)
    ensures r == Rev(x, nbits)
  {
    r := 0;
    for j := 0 to nbits
      invariant Rest(r, x, j, nbits)
    {
      MoveBit(r, x, j, nbits);
      if TestBit(x, j) {
        r := SetBit(r, nbits - j - 1);
      }
    }
  }
}
