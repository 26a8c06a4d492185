/** Lists of timing results (lib_timing.c): insertsort and the size of a list. */
module Results {
  import opened Arith

  const TRIES: nat := 11

  // value_t: u microseconds for n iterations.
  datatype Value = Value(u: nat, n: nat)

  type Measurement = v: Value | v.n > 0 witness Value(0, 1)

  // u / (double) n
  function Rate(v: Measurement): real {
    v.u as real / v.n as real
  }

  // Biggest to smallest.
  ghost predicate Sorted(s: seq<Measurement>) {
    forall i, j :: 0 <= i < j < |s| ==> Rate(s[i]) >= Rate(s[j])
  }

  // How many values fit into a list allocated with sizeof_result.
  function Capacity(repetitions: int): nat {
    if repetitions <= TRIES then TRIES else repetitions
  }

  // s with x put in front of the first smaller value.
  function Inserted(s: seq<Measurement>, x: Measurement): seq<Measurement> {
    if s == [] || Rate(x) > Rate(s[0]) then [x] + s else [s[0]] + Inserted(s[1..], x)
  }

  /** insertsort as a function: a zero time is not recorded. */
  function Recorded(s: seq<Measurement>, x: Measurement): seq<Measurement> {
    if x.u == 0 then s else Inserted(s, x)
  }

  lemma {:induction false} InsertedMultiset(s: seq<Measurement>, x: Measurement)
    ensures multiset(Inserted(s, x)) == multiset(s) + multiset{x}
  {
    if s != [] && Rate(x) <= Rate(s[0]) {
      InsertedMultiset(s[1..], x);
      assert s == [s[0]] + s[1..];
    }
  }

  /** Inserting keeps a list sorted. */
  lemma {:induction false} InsertedSorted(s: seq<Measurement>, x: Measurement)
    requires Sorted(s)
    ensures Sorted(Inserted(s, x))
  {
    if s != [] && Rate(x) <= Rate(s[0]) {
      InsertedSorted(s[1..], x);
      HeadStays(s[1..], x, s[0]);
    }
  }

  // What is below y stays below it, and so does x.
  lemma HeadStays(s: seq<Measurement>, x: Measurement, y: Measurement)
    requires Rate(x) <= Rate(y) && forall k :: 0 <= k < |s| ==> Rate(s[k]) <= Rate(y)
    ensures forall k :: 0 <= k < |Inserted(s, x)| ==> Rate(Inserted(s, x)[k]) <= Rate(y)
  {
    var t := Inserted(s, x);
    InsertedMultiset(s, x);
    forall k | 0 <= k < |t|
      ensures Rate(t[k]) <= Rate(y)
    {
      assert t[k] in multiset(s) + multiset{x};
    }
  }

  lemma InsertedAt(s: seq<Measurement>, x: Measurement, i: nat)
    requires i <= |s| && (forall k :: 0 <= k < i ==> Rate(x) <= Rate(s[k])) && (i < |s| ==> Rate(x) > Rate(s[i]))
    ensures Inserted(s, x) == s[..i] + [x] + s[i..]
  {
    if i > 0 {
      InsertedAt(s[1..], x, i - 1);
      HeadOff(s, i);
      assert Inserted(s, x) == [s[0]] + Inserted(s[1..], x);
    }
  }

  lemma HeadOff<T>(s: seq<T>, i: nat)
    requires 0 < i <= |s|
    ensures s[..i] == [s[0]] + s[1..][..i - 1] && s[i..] == s[1..][i - 1..]
  {
  }

  /** result_t. */
  class ResultList {
    var N: nat
    const v: array<Measurement>

    ghost predicate Valid()
      reads this
    {
      N <= v.Length
    }

    function Contents(): seq<Measurement>
      requires Valid()
      reads this, v
    {
      v[..N]
    }

    /** insertinit, on a list allocated with sizeof_result(repetitions). */
    constructor (repetitions: int)
      ensures Valid() && Contents() == [] && v.Length == Capacity(repetitions) && fresh(v)
    {
      N := 0;
      v := new Measurement[Capacity(repetitions)](_ => Value(0, 1));
    }

    /** insertsort: there must be room, unless there is nothing to record. */
    method InsertSort(x: Measurement)
      requires Valid() && (x.u > 0 ==> N < v.Length)
      modifies this, v
      ensures Valid() && Contents() == Recorded(old(Contents()), x)
      ensures N == old(N) + if x.u == 0 then 0 else 1
    {
      if x.u == 0 {
        return;
      }
      var i := Position(x);
      InsertedAt(Contents(), x, i);
      InsertAt(i, x);
    }

    // The first smaller value.
    method Position(x: Measurement) returns (i: nat)
      requires Valid()
      ensures i <= N && (forall k :: 0 <= k < i ==> Rate(x) <= Rate(Contents()[k]))
      ensures i < N ==> Rate(x) > Rate(Contents()[i])
    {
      i := 0;
      while i < N && Rate(x) <= Rate(v[i])
        invariant i <= N && forall k :: 0 <= k < i ==> Rate(x) <= Rate(v[k])
      {
        i := i + 1;
      }
    }

    method InsertAt(i: nat, x: Measurement)
      requires Valid() && i <= N < v.Length
      modifies this, v
      ensures Valid() && N == old(N) + 1 && Contents() == old(Contents()[..i]) + [x] + old(Contents()[i..])
    {
      ghost var s := Contents();
      var j := N;
      while j > i
        invariant i <= j <= N == old(N) && v[..j] == s[..j]
        invariant forall k :: j < k <= N ==> v[k] == s[k - 1]
      {
        v[j] := v[j - 1];
        j := j - 1;
      }
      v[i] := x;
      N := N + 1;
      Shifted(v[..N], s, i, x);
    }
  }

  lemma Shifted(t: seq<Measurement>, s: seq<Measurement>, i: nat, x: Measurement)
    requires i <= |s| && |t| == |s| + 1 && t[..i] == s[..i] && t[i] == x
    requires forall k :: i < k <= |s| ==> t[k] == s[k - 1]
    ensures t == s[..i] + [x] + s[i..]
  {
  }

  // ---- Merging: lines 480-483 of benchmp_parent ----------------------------------------------

  function Merged(s: seq<Measurement>, t: seq<Measurement>): seq<Measurement>
    decreases |t|
  {
    if t == [] then s else Merged(Recorded(s, t[0]), t[1..])
  }

  lemma {:induction false} MergedMultiset(s: seq<Measurement>, t: seq<Measurement>)
    requires forall x :: x in t ==> x.u > 0
    ensures multiset(Merged(s, t)) == multiset(s) + multiset(t)
    decreases |t|
  {
    if t != [] {
      InsertedMultiset(s, t[0]);
      MergedMultiset(Recorded(s, t[0]), t[1..]);
      assert t == [t[0]] + t[1..];
    }
  }

  lemma {:induction false} MergedSorted(s: seq<Measurement>, t: seq<Measurement>)
    requires Sorted(s)
    ensures Sorted(Merged(s, t))
    decreases |t|
  {
    if t != [] {
      InsertedSorted(s, t[0]);
      MergedSorted(Recorded(s, t[0]), t[1..]);
    }
  }

  /** Merging a list of recorded values adds exactly its values and keeps the result sorted. */
  lemma MergedFacts(s: seq<Measurement>, t: seq<Measurement>)
    requires Sorted(s) && forall x :: x in t ==> x.u > 0
    ensures Sorted(Merged(s, t)) && multiset(Merged(s, t)) == multiset(s) + multiset(t)
    ensures |Merged(s, t)| == |s| + |t|
  {
    MergedSorted(s, t);
    MergedMultiset(s, t);
    assert |multiset(Merged(s, t))| == |Merged(s, t)|;
  }

  lemma {:induction false} InsertedLength(s: seq<Measurement>, x: Measurement)
    ensures |Inserted(s, x)| == |s| + 1
  {
    if s != [] && Rate(x) <= Rate(s[0]) {
      InsertedLength(s[1..], x);
    }
  }

  /** The loop of benchmp_parent. */
  method MergeInto(merged: ResultList, results: seq<Measurement>)
    requires merged.Valid() && merged.N + |results| <= merged.v.Length
    modifies merged, merged.v
    ensures merged.Valid() && merged.Contents() == Merged(old(merged.Contents()), results)
  {
    ghost var s := merged.Contents();
    for j := 0 to |results|
      invariant merged.Valid() && merged.N + (|results| - j) <= merged.v.Length
      invariant Merged(merged.Contents(), results[j..]) == Merged(s, results)
    {
      assert results[j..][1..] == results[j + 1..];
      merged.InsertSort(results[j]);
    }
  }

  // ---- What is made of the results --------------------------------------------------------------

  /** save_minimum: the value kept is one of the list, and none is smaller. */
  method SaveMinimum(results: ResultList) returns (v: Measurement)
    requires results.Valid() && Sorted(results.Contents())
    ensures results.N == 0 ==> v == Value(0, 1)
    ensures results.N > 0 ==>
              v in results.Contents() && forall x :: x in results.Contents() ==> Rate(v) <= Rate(x)
  {
    if results.N == 0 {
      return Value(0, 1);
    }
    v := results.v[results.N - 1];
    assert v == results.Contents()[results.N - 1];
  }

  /** save_median: the value kept has at least half of the list above it and half below it if and only if
      there is a middle one, or the two in the middle can be averaged. */
  method SaveMedian(results: ResultList) returns (v: Measurement)
    requires results.Valid() && Sorted(results.Contents())
    ensures results.N == 0 ==> v == Value(0, 1)
    ensures Halves(results.Contents(), v) <==> HasMedian(results.Contents())
  {
    var i := results.N / 2;
    if results.N == 0 {
      return Value(0, 1);
    }
    if results.N % 2 == 1 {
      v := results.v[i];
    } else {
      v := Value((results.v[i].u + results.v[i - 1].u) / 2, (results.v[i].n + results.v[i - 1].n) / 2);
      BetweenIff(results.v[i - 1], results.v[i]);
      assert v == Average(results.v[i - 1], results.v[i]);
      HalvesIff(results.Contents(), v);
    }
  }

  ghost predicate Halves(s: seq<Measurement>, v: Measurement) {
    && (forall k :: 0 <= k < (|s| + 1) / 2 ==> Rate(s[k]) >= Rate(v))
    && (forall k :: |s| / 2 <= k < |s| ==> Rate(v) >= Rate(s[k]))
  }

  // What is kept of the two values in the middle.
  function Average(a: Measurement, b: Measurement): Measurement {
    Value((b.u + a.u) / 2, (b.n + a.n) / 2)
  }

  // How far apart two rates are, as fractions over a common denominator.
  function Apart(a: Measurement, b: Measurement): int {
    a.u * b.n - b.u * a.n
  }

  // Halving loses nothing, or the two are far enough apart for what it loses.
  predicate Averages(a: Measurement, b: Measurement) {
    match ((a.u + b.u) % 2, (a.n + b.n) % 2)
    case (0, 0) => true
    case (0, _) => Apart(a, b) >= a.u
    case (_, 0) => Apart(a, b) >= b.n
    case (_, _) => Apart(a, b) >= a.u - a.n && Apart(a, b) >= b.n - b.u
  }

  predicate HasMedian(s: seq<Measurement>) {
    |s| % 2 == 0 && |s| > 0 ==> Averages(s[|s| / 2 - 1], s[|s| / 2])
  }

  // In a sorted list of even length only the two in the middle matter.
  lemma HalvesIff(s: seq<Measurement>, v: Measurement)
    requires Sorted(s) && |s| > 0 && |s| % 2 == 0
    ensures Halves(s, v) <==> Rate(s[|s| / 2 - 1]) >= Rate(v) >= Rate(s[|s| / 2])
  {
  }

  // Rates are compared by cross multiplication.
  lemma RateOrder(a: Measurement, b: Measurement)
    ensures Rate(a) >= Rate(b) <==> a.u * b.n >= b.u * a.n
  {
    var x, y := Rate(a), Rate(b);
    var m, n := a.n as real, b.n as real;
    assert x * m == a.u as real && y * n == b.u as real;
    CrossOrder(x, y, m, n);
    assert (a.u * b.n) as real == a.u as real * n && (b.u * a.n) as real == b.u as real * m;
  }

  lemma CrossOrder(x: real, y: real, m: real, n: real)
    requires m > 0.0 && n > 0.0
    ensures x >= y <==> x * m * n >= y * n * m
  {
    Scaled(x, y, m * n);
  }

  lemma Scaled(x: real, y: real, n: real)
    requires n > 0.0
    ensures x >= y <==> x * n >= y * n
  {
    assert (x - y) * n == x * n - y * n;
  }

  lemma UpperIff(u: int, n: int, u': int, n': int, p: int, q: int, e: int, f: int)
    requires 2 * p + e == u + u' && 2 * q + f == n + n'
    ensures u * q >= p * n <==> u * n' - u' * n >= f * u - e * n
  {
    assert u * (2 * q + f) == u * (n + n') && (2 * p + e) * n == (u + u') * n;
    assert u * (2 * q + f) == 2 * (u * q) + f * u && (2 * p + e) * n == 2 * (p * n) + e * n;
    assert u * (n + n') == u * n + u * n' && (u + u') * n == u * n + u' * n;
  }

  /** The average of two values is between them if and only if their sums are even, or they are far enough
      apart for what halving odd sums loses. */
  lemma BetweenIff(a: Measurement, b: Measurement)
    requires Rate(a) >= Rate(b)
    ensures Rate(a) >= Rate(Average(a, b)) >= Rate(b) <==> Averages(a, b)
  {
    var v, e, f := Average(a, b), (a.u + b.u) % 2, (a.n + b.n) % 2;
    RateOrder(a, b);
    RateOrder(a, v);
    RateOrder(v, b);
    UpperIff(a.u, a.n, b.u, b.n, v.u, v.n, e, f);
    UpperIff(b.n, b.u, a.n, a.u, v.n, v.u, f, e);
    Corrections(a, b, e, f);
  }

  // The four cases of Averages.
  lemma Corrections(a: Measurement, b: Measurement, e: int, f: int)
    requires Apart(a, b) >= 0 && e == (a.u + b.u) % 2 && f == (a.n + b.n) % 2
    ensures Averages(a, b) <==> Apart(a, b) >= f * a.u - e * a.n && Apart(a, b) >= e * b.n - f * b.u
  {
    var d := Apart(a, b);
    Bit(f, a.u);
    Bit(e, a.n);
    Bit(e, b.n);
    Bit(f, b.u);
  }

  lemma Bit(e: int, x: int)
    requires 0 <= e <= 1
    ensures e * x == if e == 0 then 0 else x
  {
  }

  ghost predicate SameIterations(s: seq<Measurement>) {
    forall i, j :: 0 <= i < j < |s| ==> s[i].n == s[j].n
  }

  /** Where all values are for the same number of iterations there is always a median. */
  lemma SameHasMedian(s: seq<Measurement>)
    requires Sorted(s) && SameIterations(s)
    ensures HasMedian(s)
  {
    if |s| % 2 == 0 && |s| > 0 {
      var a, b := s[|s| / 2 - 1], s[|s| / 2];
      RateOrder(a, b);
      SameAverages(a, b);
    }
  }

  lemma SameAverages(a: Measurement, b: Measurement)
    requires a.n == b.n && a.u * b.n >= b.u * a.n
    ensures Averages(a, b)
  {
    GapOf(a.u, b.u, a.n);
    assert (a.n + b.n) % 2 == 0;
  }

  lemma GapOf(x: int, y: int, n: int)
    requires n > 0 && x * n >= y * n
    ensures x >= y && (x > y ==> x * n - y * n >= n)
  {
    if x < y {
      LessTimes(x, y, n);
    } else if x > y {
      assert (x - y - 1) * n >= 0;
    }
  }

  lemma LessTimes(x: int, y: int, n: int)
    requires n > 0 && x < y
    ensures x * n < y * n
  {
    MulMonotone(n, x + 1, y);
  }

  /** 3 in one iteration and 5 in two: what is kept, 4 in one, is above both. */
  lemma MedianOutside()
    ensures var a, b := Value(3, 1), Value(5, 2);
            && Rate(a) >= Rate(b) && Average(a, b) == Value(4, 1) && Rate(Average(a, b)) > Rate(a)
            && !Averages(a, b)
  {
    RateOrder(Value(3, 1), Value(5, 2));
    BetweenIff(Value(3, 1), Value(5, 2));
  }
}
