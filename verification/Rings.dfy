/** Rings of pointers in memory: what a pointer chase walks on.

    A memory maps the address of a pointer-sized word to the pointer stored
    there.  A word nobody has written is not in the map, so a chase that would
    read an uninitialised word is an error, not an arbitrary value. */
module Rings {
  import opened Arith

  type Memory = map<int, int>

  ghost predicate Distinct<T>(s: seq<T>) {
    forall i, j :: 0 <= i < j < |s| ==> s[i] != s[j]
  }

  // Any two entries are at least gap apart.
  ghost predicate Spaced(s: seq<int>, gap: int) {
    forall i, j :: 0 <= i < |s| && 0 <= j < |s| && i != j ==> s[i] + gap <= s[j] || s[j] + gap <= s[i]
  }

  // The word at a holds a pointer to b.
  predicate Points(m: Memory, a: int, b: int) {
    a in m && m[a] == b
  }

  // Following the pointers from the first address of s visits s in order.
  ghost predicate IsPath(m: Memory, s: seq<int>) {
    forall i, j {:trigger s[i], s[j]} :: 0 <= i && j == i + 1 < |s| ==> Points(m, s[i], s[j])
  }

  // The last address of s points at the first address of t.
  predicate Joined(m: Memory, s: seq<int>, t: seq<int>) {
    s != [] && t != [] && Points(m, s[|s| - 1], t[0])
  }

  // The chain leads from a through s to z, without repetition.
  ghost predicate Runs(m: Memory, s: seq<int>, a: int, z: int) {
    s != [] && IsPath(m, s) && Distinct(s) && s[0] == a && s[|s| - 1] == z
  }

  /** The chain through s is one single cycle: the addresses are distinct, each
      points to its successor, and the last points back to the first. */
  ghost predicate IsRing(m: Memory, s: seq<int>) {
    s != [] && Distinct(s) && IsPath(m, s) && Joined(m, s, s)
  }

  ghost predicate Apart<T>(s: seq<T>, t: seq<T>) {
    forall x :: x in s ==> x !in t
  }

  // ---- Concatenating rows: how nested loops build a ring -------------------

  // row(0) + row(1) + ... + row(n - 1)
  function Rows<T>(n: nat, row: nat -> seq<T>): seq<T> {
    if n == 0 then [] else Rows(n - 1, row) + row(n - 1)
  }

  lemma {:induction false} RowsLength<T>(n: nat, row: nat -> seq<T>, len: nat)
    requires forall i: nat :: i < n ==> |row(i)| == len
    ensures |Rows(n, row)| == Times(n, len)
  {
    if n > 0 {
      RowsLength(n - 1, row, len);
    }
  }

  lemma {:induction false} RowsMember<T>(n: nat, row: nat -> seq<T>, x: T)
    ensures x in Rows(n, row) <==> exists i: nat :: i < n && x in row(i)
  {
    if n > 0 {
      RowsMember(n - 1, row, x);
    }
  }

  // The r-th entry of row q stands at position q * len + r, if the rows before the last have len entries.
  lemma {:induction false} RowsAt<T>(n: nat, row: nat -> seq<T>, len: nat, q: nat, r: nat)
    requires forall i: nat :: i + 1 < n ==> |row(i)| == len
    requires q < n && r < |row(q)|
    ensures Times(q, len) + r < |Rows(n, row)| && Rows(n, row)[Times(q, len) + r] == row(q)[r]
  {
    RowsLength(n - 1, row, len);
    if q < n - 1 {
      RowsAt(n - 1, row, len, q, r);
    }
  }

  lemma {:induction false} RowsDistinct<T>(n: nat, row: nat -> seq<T>)
    requires forall i: nat :: i < n ==> Distinct(row(i))
    requires forall i: nat, j: nat {:trigger row(i), row(j)} :: i < j < n ==> Apart(row(i), row(j))
    ensures Distinct(Rows(n, row))
  {
    if n > 0 {
      RowsDistinct(n - 1, row);
      var s, t := Rows(n - 1, row), row(n - 1);
      forall i, j | 0 <= i < j < |s + t|
        ensures (s + t)[i] != (s + t)[j]
      {
        RowsMember(n - 1, row, (s + t)[i]);
        if i < |s| <= j {
          var k: nat :| k < n - 1 && s[i] in row(k);
          assert Apart(row(k), row(n - 1));
        }
      }
    }
  }

  lemma {:induction false} RowsPath(m: Memory, n: nat, row: nat -> seq<int>)
    requires n > 0
    requires forall i: nat :: i < n ==> row(i) != [] && IsPath(m, row(i))
    requires forall i: nat, j: nat {:trigger row(i), row(j)} :: j == i + 1 < n ==> Joined(m, row(i), row(j))
    ensures var s := Rows(n, row);
      && s != [] && IsPath(m, s) && s[0] == row(0)[0]
      && s[|s| - 1] == row(n - 1)[|row(n - 1)| - 1]
  {
    if n == 1 {
      assert Rows(0, row) == [];
      assert Rows(1, row) == row(0);
    } else {
      RowsPath(m, n - 1, row);
      assert Joined(m, row(n - 2), row(n - 1));
    }
  }

  /** Rows that are paths, pairwise disjoint, each joined to the next and the last joined
      to the first, make one ring. */
  lemma RowsRing(m: Memory, n: nat, row: nat -> seq<int>)
    requires n > 0
    requires forall i: nat :: i < n ==> row(i) != [] && IsPath(m, row(i)) && Distinct(row(i))
    requires forall i: nat, j: nat {:trigger row(i), row(j)} :: i < j < n ==> Apart(row(i), row(j))
    requires forall i: nat, j: nat {:trigger row(i), row(j)} :: j == i + 1 < n ==> Joined(m, row(i), row(j))
    requires Joined(m, row(n - 1), row(0))
    ensures IsRing(m, Rows(n, row)) && Rows(n, row)[0] == row(0)[0]
  {
    RowsPath(m, n, row);
    RowsDistinct(n, row);
  }

  // ---- Chasing --------------------------------------------------------------

  // The address that t dereferences lead to from p; a word that was never written counts as 0.
  ghost function Walk(m: Memory, p: int, t: nat): int {
    if t == 0 then p
    else
      var q := Walk(m, p, t - 1);
      if q in m then m[q] else 0
  }

  // One dereference moves one place along the ring.
  lemma RingStep(m: Memory, s: seq<int>, k: nat)
    requires IsRing(m, s)
    ensures Points(m, s[k % |s|], s[(k + 1) % |s|])
  {
    NextMod(k, |s|);
    var i := k % |s|;
    if i < |s| - 1 {
      var j := i + 1;
      assert Points(m, s[i], s[j]);
    }
  }

  lemma {:induction false} WalkOnRing(m: Memory, s: seq<int>, start: nat, t: nat)
    requires IsRing(m, s) && start < |s|
    ensures Walk(m, s[start], t) == s[(start + t) % |s|]
  {
    if t == 0 {
      SmallMod(start, |s|);
    } else {
      WalkOnRing(m, s, start, t - 1);
      RingStep(m, s, start + (t - 1));
    }
  }

  /** From anywhere on the ring, the walk is back after exactly |s| steps and not before. */
  lemma RingPeriod(m: Memory, s: seq<int>, start: nat, t: nat)
    requires IsRing(m, s) && start < |s| && 0 < t <= |s|
    ensures Walk(m, s[start], t) == s[start] <==> t == |s|
  {
    WalkOnRing(m, s, start, t);
    if start + t < |s| {
      DivUnique(start + t, |s|, 0, start + t);
    } else {
      DivUnique(start + t, |s|, 1, start + t - |s|);
    }
  }

  /** A walk of at least |s| - 1 steps from the first slot visits every slot of the ring. */
  lemma WalkCovers(m: Memory, s: seq<int>, steps: nat, a: int)
    requires IsRing(m, s) && a in s && steps >= |s| - 1
    ensures exists t: nat :: t <= steps && Walk(m, s[0], t) == a
  {
    var t: nat :| t < |s| && s[t] == a;
    WalkOnRing(m, s, 0, t);
    DivUnique(t, |s|, 0, t);
    assert Walk(m, s[0], t) == a;
  }

  /** mem_benchmark: p = *p, steps times, from slot at of the ring. */
  method Chase(m: Memory, start: int, steps: nat, ghost s: seq<int>, ghost at: nat) returns (p: int)
    requires IsRing(m, s) && at < |s| && s[at] == start
    ensures p == s[(at + steps) % |s|] == Walk(m, start, steps)
  {
    p := start;
    var n := 0;
    SmallMod(at, |s|);
    while n < steps
      invariant n <= steps && p == s[(at + n) % |s|]
    {
      RingStep(m, s, at + n);
      p := m[p];
      n := n + 1;
    }
    WalkOnRing(m, s, at, steps);
  }
}
