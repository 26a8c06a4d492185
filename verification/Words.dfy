/** words_initialize (lib_mem.c): the bit-reversed order in which the words of a
    line, and the lines of a page, are used. */
module Words {
  import opened Arith
  import opened Bits
  import opened Rings

  // The table words_initialize returns, as a value.
  function Order(max: nat, scale: nat): (s: seq<int>)
    ensures |s| == max
  {
    if max == 0 then [] else seq(max, (i: nat) => Rev(i, Log2(max)) * scale)
  }

  /** Fills the table by moving one bit at a time, as the source does. */
  method WordsInitialize(max: nat, scale: nat) returns (words: array<int>)
    ensures fresh(words) && words[..] == Order(max, scale)
  {
    words := new int[max](_ => 0);
    if max == 0 {
      return;
    }
    var nbits := 0;
    var rest := max / 2;
    while rest != 0
      invariant rest >= 0 && Log2(max) == nbits + if rest == 0 then 0 else 1 + Log2(rest)
    {
      rest := rest / 2;
      nbits := nbits + 1;
    }
    for i := 0 to max
      invariant forall k :: 0 <= k < i ==> words[k] == Order(max, scale)[k]
      invariant forall k :: i <= k < max ==> words[k] == 0
    {
      var w := ReverseBits(i, nbits);
      words[i] := w * scale;
    }
  }

  // ---- What the order is for -------------------------------------------------

  lemma OrderAt(k: nat, scale: nat, i: nat)
    requires i < Pow2(k)
    ensures Order(Pow2(k), scale)[i] == Rev(i, k) * scale
  {
    Log2OfPow2(k);
  }

  lemma OrderEntry(k: nat, scale: nat, i: nat)
    requires i < Pow2(k) && scale > 0
    ensures var e := Order(Pow2(k), scale)[i]; e % scale == 0 && 0 <= e <= Pow2(k) * scale - scale
  {
    OrderAt(k, scale, i);
    RevBound(i, k);
    Multiple(Rev(i, k), Pow2(k), scale);
  }

  lemma Multiple(r: nat, max: nat, scale: nat)
    requires r < max && scale > 0
    ensures r * scale % scale == 0 && 0 <= r * scale <= max * scale - scale
  {
    DivUnique(r * scale, scale, r, 0);
    MulMonotone(scale, r, max - 1);
  }

  lemma OrderHas(k: nat, scale: nat, q: nat)
    requires q < Pow2(k)
    ensures q * scale in Order(Pow2(k), scale)
  {
    RevBound(q, k);
    RevInvolution(q, k);
    OrderAt(k, scale, Rev(q, k));
  }

  lemma OrderInjective(k: nat, scale: nat, i: nat, j: nat)
    requires i < j < Pow2(k) && scale > 0
    ensures Order(Pow2(k), scale)[i] != Order(Pow2(k), scale)[j]
  {
    OrderAt(k, scale, i);
    OrderAt(k, scale, j);
    RevInvolution(i, k);
    RevInvolution(j, k);
    ScaleInjective(Rev(i, k), Rev(j, k), scale);
  }

  /** On a power of two the table is a permutation of the multiples of scale: it starts at 0,
      every entry is one of 0, scale, ..., (max - 1) * scale, none occurs twice, and none is missing. */
  lemma OrderIsPermutation(k: nat, scale: nat)
    requires scale > 0
    ensures var s := Order(Pow2(k), scale);
      && s[0] == 0
      && Distinct(s)
      && (forall i :: 0 <= i < |s| ==> s[i] % scale == 0 && 0 <= s[i] <= Pow2(k) * scale - scale)
      && (forall q: nat :: q < Pow2(k) ==> q * scale in s)
  {
    var s := Order(Pow2(k), scale);
    OrderAt(k, scale, 0);
    RevZero(k);
    forall i, j | 0 <= i < j < |s|
      ensures s[i] != s[j]
    {
      OrderInjective(k, scale, i, j);
    }
    forall i | 0 <= i < |s|
      ensures s[i] % scale == 0 && 0 <= s[i] <= Pow2(k) * scale - scale
    {
      OrderEntry(k, scale, i);
    }
    forall q: nat | q < Pow2(k)
      ensures q * scale in s
    {
      OrderHas(k, scale, q);
    }
  }

  lemma {:induction false} RevZero(k: nat)
    ensures Rev(0, k) == 0
  {
    if k > 0 {
      RevZero(k - 1);
    }
  }

  lemma ScaleInjective(x: nat, y: nat, scale: nat)
    requires scale > 0
    ensures x * scale == y * scale ==> x == y
  {
    if x * scale == y * scale {
      EuclidUnique(scale, x, 0, y, 0);
    }
  }

  /** Exactly the powers of two: for any other size some offset is used twice. */
  lemma OrderDistinctIff(max: nat, scale: nat)
    requires max > 0 && scale > 0
    ensures Distinct(Order(max, scale)) <==> IsPow2(max)
  {
    var n := Log2(max);
    var s := Order(max, scale);
    if max == Pow2(n) {
      OrderIsPermutation(n, scale);
    } else {
      assert !IsPow2(max) by {
        if IsPow2(max) {
          var k: nat :| max == Pow2(k);
          Log2OfPow2(k);
        }
      }
      RevDropsHighBits(0, 1, n);
      assert s[0] == s[Pow2(n)];
    }
  }

  // Distinct multiples of gap are at least gap apart.
  lemma MultiplesAreSpaced(s: seq<int>, gap: nat)
    requires gap > 0 && Distinct(s)
    requires forall i :: 0 <= i < |s| ==> s[i] % gap == 0
    ensures Spaced(s, gap)
  {
    forall i, j | 0 <= i < |s| && 0 <= j < |s| && i != j
      ensures s[i] + gap <= s[j] || s[j] + gap <= s[i]
    {
      var x, y := s[i] / gap, s[j] / gap;
      assert s[i] == gap * x && s[j] == gap * y;
      if x < y {
        MulMonotone(gap, x + 1, y);
      } else {
        MulMonotone(gap, y + 1, x);
      }
    }
  }

  /** The first entries of the table for a fine granularity are, in the same order, the table for any
      coarser one: what lets a line test visit only some of the words of a page. */
  lemma OrderPrefix(k: nat, m: nat, scale: nat)
    requires m <= k
    ensures Pow2(m) <= Pow2(k)
    ensures Order(Pow2(k), scale)[..Pow2(m)] == Order(Pow2(m), Pow2(k - m) * scale)
  {
    Pow2Monotone(m, k);
    var s, t := Order(Pow2(k), scale), Order(Pow2(m), Pow2(k - m) * scale);
    forall i | 0 <= i < Pow2(m)
      ensures s[i] == t[i]
    {
      OrderAt(k, scale, i);
      OrderAt(m, Pow2(k - m) * scale, i);
      RevOfShort(i, m, k);
      MulAssoc(Rev(i, m), Pow2(k - m), scale);
    }
    assert s[..Pow2(m)] == t;
  }

  lemma MulAssoc(x: int, y: int, z: int)
    ensures x * y * z == x * (y * z)
  {
  }
}
