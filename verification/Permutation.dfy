/** permutation (lib_timing.c): a random order of the pages. */
module Permutation {
  import opened Rings
  import opened Words

  function Multiples(max: nat, scale: nat): (s: seq<int>)
    ensures |s| == max
  {
    seq(max, i => i * scale)
  }

  // ---- The shuffle -----------------------------------------------------------------------------

  // What the shuffle draws for positions 1 to max - 1: for position i one of the first i + 1.
  predicate Draws(d: seq<nat>, max: nat) {
    |d| == max && forall i :: 0 <= i < max ==> d[i] <= i
  }

  function DrawsOf(max: nat, rnd: nat -> nat): (d: seq<nat>)
    ensures Draws(d, max)
  {
    seq(max, (i: nat) => rnd(i) % (i + 1))
  }

  function Swap(s: seq<int>, i: nat, j: nat): (t: seq<int>)
    requires i < |s| && j < |s|
    ensures |t| == |s|
  {
    s[j := s[i]][i := s[j]]
  }

  // Positions i, i - 1, ..., 1 are swapped with the ones drawn.
  function Shuffled(s: seq<int>, d: seq<nat>, i: nat): (t: seq<int>)
    requires i < |s| && Draws(d, |s|)
    ensures |t| == |s|
    decreases i
  {
    if i == 0 then s else Shuffled(Swap(s, i, d[i]), d, i - 1)
  }

  lemma SwapFacts(s: seq<int>, i: nat, j: nat)
    requires i < |s| && j < |s|
    ensures Swap(s, i, j)[i] == s[j] && Swap(s, i, j)[j] == s[i]
    ensures forall k :: 0 <= k < |s| && k != i && k != j ==> Swap(s, i, j)[k] == s[k]
    ensures multiset(Swap(s, i, j)) == multiset(s)
  {
  }

  lemma SwapDistinct(s: seq<int>, i: nat, j: nat)
    requires i < |s| && j < |s| && Distinct(s)
    ensures Distinct(Swap(s, i, j))
  {
    SwapFacts(s, i, j);
    SameDistinct(Swap(s, i, j), s);
  }

  lemma {:induction false} ShuffledMultiset(s: seq<int>, d: seq<nat>, i: nat)
    requires i < |s| && Draws(d, |s|)
    ensures multiset(Shuffled(s, d, i)) == multiset(s)
    decreases i
  {
    if i > 0 {
      SwapFacts(s, i, d[i]);
      ShuffledMultiset(Swap(s, i, d[i]), d, i - 1);
    }
  }

  /** Shuffles the multiples of scale; rnd is the stream of random numbers the source draws,
      and nothing is known about it.  With max == 0 the source's loop index wraps around, so
      callers must ask for at least one entry. */
  method Permute(max: nat, scale: nat, rnd: nat -> nat) returns (result: array<int>)
    requires max > 0
    ensures fresh(result) && result.Length == max
    ensures result[..] == Shuffled(Multiples(max, scale), DrawsOf(max, rnd), max - 1)
    ensures result[max - 1] == rnd(max - 1) % max * scale
    ensures multiset(result[..]) == multiset(Multiples(max, scale))
  {
    ghost var d := DrawsOf(max, rnd);
    result := new int[max](i => i * scale);
    assert result[..] == Multiples(max, scale);
    var i := max - 1;
    FirstDrawn(max, scale, rnd);
    while i > 0
      invariant 0 <= i < max
      invariant Shuffled(result[..], d, i) == Shuffled(Multiples(max, scale), d, max - 1)
    {
      SwapDrawn(result, i, rnd(i));
      i := i - 1;
    }
  }

  // Lines 1657-1659, for position i and the random number r.
  method SwapDrawn(result: array<int>, i: nat, r: nat)
    requires i < result.Length
    modifies result
    ensures r % (i + 1) <= i && result[..] == Swap(old(result[..]), i, r % (i + 1))
  {
    var v := result[r % (i + 1)];
    result[r % (i + 1)] := result[i];
    result[i] := v;
  }

  lemma FirstDrawn(max: nat, scale: nat, rnd: nat -> nat)
    requires max > 0
    ensures var t := Shuffled(Multiples(max, scale), DrawsOf(max, rnd), max - 1);
            t[max - 1] == rnd(max - 1) % max * scale && multiset(t) == multiset(Multiples(max, scale))
  {
    LastStays(Multiples(max, scale), DrawsOf(max, rnd), max - 1);
    ShuffledMultiset(Multiples(max, scale), DrawsOf(max, rnd), max - 1);
  }

  // Nothing above position i is moved, and what is drawn for position i stays there.
  lemma {:induction false} LastStays(s: seq<int>, d: seq<nat>, i: nat)
    requires i < |s| && Draws(d, |s|)
    ensures Shuffled(s, d, i)[i] == s[d[i]]
    ensures forall k :: i < k < |s| ==> Shuffled(s, d, i)[k] == s[k]
    decreases i
  {
    if i > 0 {
      SwapFacts(s, i, d[i]);
      LastStays(Swap(s, i, d[i]), d, i - 1);
    }
  }

  /** Different draws give different orders. */
  lemma {:induction false} DrawsDiffer(s: seq<int>, d: seq<nat>, d': seq<nat>, i: nat)
    requires i < |s| && Draws(d, |s|) && Draws(d', |s|) && Distinct(s)
    requires Shuffled(s, d, i) == Shuffled(s, d', i)
    ensures forall k :: 0 <= k <= i ==> d[k] == d'[k]
    decreases i
  {
    LastStays(s, d, i);
    LastStays(s, d', i);
    assert d[i] == d'[i];
    if i > 0 {
      SwapDistinct(s, i, d[i]);
      DrawsDiffer(Swap(s, i, d[i]), d, d', i - 1);
    }
  }

  // t holds entries of s only, each once, and is the same above position i.
  ghost predicate SameAbove(s: seq<int>, t: seq<int>, i: nat) {
    && Distinct(s) && Distinct(t) && |t| == |s| && (forall x :: x in t ==> x in s)
    && forall k :: i < k < |s| ==> t[k] == s[k]
  }

  // Then some draws turn s into t.
  lemma {:induction false} SomeDraws(s: seq<int>, t: seq<int>, i: nat) returns (d: seq<nat>)
    requires i < |s| && SameAbove(s, t, i)
    ensures Draws(d, |s|) && Shuffled(s, d, i) == t
    decreases i
  {
    var j := Found(s, t, i);
    if i == 0 {
      d := seq(|s|, _ => 0);
      assert s == t;
    } else {
      SwapSameAbove(s, t, i, j);
      var e := SomeDraws(Swap(s, i, j), t, i - 1);
      d := e[i := j];
      OnlyBelow(Swap(s, i, j), d, e, i - 1);
    }
  }

  // The entry that belongs at position i is not above it.
  lemma Found(s: seq<int>, t: seq<int>, i: nat) returns (j: nat)
    requires i < |s| && SameAbove(s, t, i)
    ensures j <= i && s[j] == t[i]
  {
    assert t[i] in t;
    j :| 0 <= j < |s| && s[j] == t[i];
  }

  lemma SwapSameAbove(s: seq<int>, t: seq<int>, i: nat, j: nat)
    requires 0 < i < |s| && SameAbove(s, t, i) && j <= i && s[j] == t[i]
    ensures SameAbove(Swap(s, i, j), t, i - 1)
  {
    SwapFacts(s, i, j);
    SwapDistinct(s, i, j);
    SameMembers(Swap(s, i, j), s);
  }

  // Draws above position i do not matter.
  lemma {:induction false} OnlyBelow(s: seq<int>, d: seq<nat>, e: seq<nat>, i: nat)
    requires i < |s| && Draws(d, |s|) && Draws(e, |s|) && forall k :: 0 <= k <= i ==> d[k] == e[k]
    ensures Shuffled(s, d, i) == Shuffled(s, e, i)
    decreases i
  {
    if i > 0 {
      OnlyBelow(Swap(s, i, d[i]), d, e, i - 1);
    }
  }

  // Draws that lead from the multiples of scale to this order.
  ghost predicate DrawnBy(t: seq<int>, d: seq<nat>, max: nat, scale: nat)
    requires max > 0
  {
    Draws(d, max) && Shuffled(Multiples(max, scale), d, max - 1) == t
  }

  /** The draws and the orders correspond one to one: every order of the multiples is drawn, and by one
      sequence of draws only.  So if all draws are equally likely, all orders are. */
  lemma OrdersAreDraws(t: seq<int>, max: nat, scale: nat)
    requires max > 0 && scale > 0
    ensures multiset(t) == multiset(Multiples(max, scale)) <==> exists d :: DrawnBy(t, d, max, scale)
    ensures forall d, d' :: DrawnBy(t, d, max, scale) && DrawnBy(t, d', max, scale) ==> d == d'
  {
    var s := Multiples(max, scale);
    MultiplesDistinct(max, scale);
    if multiset(t) == multiset(s) {
      SameMembers(t, s);
      SameDistinct(t, s);
      var d := SomeDraws(s, t, max - 1);
      assert DrawnBy(t, d, max, scale);
    }
    if d :| DrawnBy(t, d, max, scale) {
      ShuffledMultiset(s, d, max - 1);
    }
    forall d, d' | DrawnBy(t, d, max, scale) && DrawnBy(t, d', max, scale)
      ensures d == d'
    {
      DrawsDiffer(s, d, d', max - 1);
    }
  }

  lemma MultiplesDistinct(max: nat, scale: nat)
    requires scale > 0
    ensures Distinct(Multiples(max, scale))
  {
    forall i, j | 0 <= i < j < max
      ensures Multiples(max, scale)[i] != Multiples(max, scale)[j]
    {
      ScaleInjective(i, j, scale);
    }
  }

  lemma SameMembers(s: seq<int>, t: seq<int>)
    requires multiset(s) == multiset(t)
    ensures |s| == |t| && forall x :: x in s <==> x in t
  {
    assert |multiset(s)| == |multiset(t)|;
    forall x
      ensures x in s <==> x in t
    {
      assert x in s <==> x in multiset(s);
    }
  }

  lemma {:induction false} SameDistinct(s: seq<int>, t: seq<int>)
    requires multiset(s) == multiset(t) && Distinct(t)
    ensures Distinct(s)
  {
    forall i, j | 0 <= i < j < |s|
      ensures s[i] != s[j]
    {
      if s[i] == s[j] {
        TwiceInMultiset(s, i, j);
        assert s[i] in multiset(t);
        var k :| 0 <= k < |t| && t[k] == s[i];
        OnceInMultiset(t, k);
      }
    }
  }

  lemma TwiceInMultiset(s: seq<int>, i: nat, j: nat)
    requires i < j < |s| && s[i] == s[j]
    ensures multiset(s)[s[i]] >= 2
  {
    assert s == s[..j] + [s[j]] + s[j + 1..];
    assert s[i] in s[..j];
    assert s[i] in multiset(s[..j]);
  }

  lemma OnceInMultiset(t: seq<int>, k: nat)
    requires k < |t| && Distinct(t)
    ensures multiset(t)[t[k]] == 1
  {
    assert t == t[..k] + [t[k]] + t[k + 1..];
    assert t[k] !in t[..k] && t[k] !in t[k + 1..];
    assert t[k] !in multiset(t[..k]) && t[k] !in multiset(t[k + 1..]);
  }

  /** As many different values as a list has entries fill it: the list has no repetitions either. */
  lemma NoRoomToRepeat(s: seq<int>, t: seq<int>)
    requires Distinct(s) && |s| == |t| && forall x :: x in s ==> x in t
    ensures Distinct(t)
  {
    forall x | x in multiset(s)
      ensures multiset(s)[x] <= multiset(t)[x]
    {
      var k: nat :| k < |s| && s[k] == x;
      OnceInMultiset(s, k);
      assert s[k] in s && x in t;
      var j: nat :| j < |t| && t[j] == x;
      assert t[j] in multiset(t);
    }
    assert multiset(s) <= multiset(t);
    assert |multiset(t) - multiset(s)| == 0;
    assert multiset(t) == multiset(s) + (multiset(t) - multiset(s));
    SameDistinct(t, s);
  }

  /** Whatever the random stream: the result uses every multiple of scale below max * scale,
      each exactly once, and so no two of the pages overlap. */
  lemma PermutedMultiples(s: seq<int>, max: nat, scale: nat)
    requires scale > 0 && multiset(s) == multiset(Multiples(max, scale))
    ensures |s| == max && Distinct(s) && Spaced(s, scale)
    ensures forall i :: 0 <= i < |s| ==> s[i] % scale == 0 && 0 <= s[i] <= max * scale - scale
    ensures forall q: nat :: q < max ==> q * scale in s
  {
    var t := Multiples(max, scale);
    SameMembers(s, t);
    MultiplesDistinct(max, scale);
    SameDistinct(s, t);
    forall i | 0 <= i < |s|
      ensures s[i] % scale == 0 && 0 <= s[i] <= max * scale - scale
    {
      assert s[i] in s;
      var q :| 0 <= q < |t| && t[q] == s[i];
      Multiple(q, max, scale);
    }
    forall q: nat | q < max
      ensures q * scale in s
    {
      assert t[q] in t;
    }
    MultiplesAreSpaced(s, scale);
  }
}
