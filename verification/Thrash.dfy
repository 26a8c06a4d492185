/** thrash_initialize (lib_mem.c): a ring that changes pages at every step. */
module Thrash {
  import opened Arith
  import opened Bits
  import opened Rings
  import opened Words
  import opened Permutation
  import opened Layout
  import opened LibMem
  import opened LineRing

  // Step i of lap j: page i, at a line one further along the diagonal.  (What the source calls
  // words here are the offsets of the lines of a page.)
  function Slot(g: Shape, i: nat, j: nat): int
    requires i < |g.pages| && g.lines != []
  {
    g.At(i, Rem(i + j, |g.lines|), 0)
  }

  function LapOf(g: Shape, np: nat, j: nat): seq<int> {
    if np <= |g.pages| && g.lines != [] then seq(np, (i: nat) requires i < np => Slot(g, i, j)) else []
  }

  function LapRow(g: Shape, np: nat): nat -> seq<int> {
    (j: nat) => LapOf(g, np, j)
  }

  /** The order in which the chain visits memory: in each lap every page once, each lap on the
      next diagonal. */
  function Ring(g: Shape, np: nat): seq<int> {
    Rows(|g.lines|, LapRow(g, np))
  }

  // The diagonal of page i leads to that of page i + 1.
  ghost predicate Diagonal(g: Shape, m: Memory, i: nat, n: nat)
    requires i + 1 < |g.pages| && n <= |g.lines|
  {
    forall j: nat | j < n :: Points(m, Slot(g, i, j), Slot(g, i + 1, j))
  }

  // Page i leads back to the first page, on the next diagonal.
  ghost predicate Closed(g: Shape, m: Memory, i: nat, n: nat)
    requires i < |g.pages| && n <= |g.lines|
  {
    forall j: nat | j < n :: Points(m, Slot(g, i, j), NextLap(g, j))
  }

  function NextLap(g: Shape, j: nat): int
    requires g.pages != [] && g.lines != []
  {
    g.At(0, Rem(j + 1, |g.lines|), 0)
  }

  lemma SlotsDiffer(g: Shape, i: nat, j: nat, i': nat, j': nat)
    requires FirstWords(g).Valid() && i < |g.pages| && i' < |g.pages| && j < |g.lines| && j' < |g.lines|
    ensures Slot(g, i, j) == Slot(g, i', j') ==> i == i' && j == j'
  {
    var h := FirstWords(g);
    assert h.words[0] == 0;
    h.Injective(i, Rem(i + j, |g.lines|), 0, i', Rem(i' + j', |g.lines|), 0);
    if i == i' && j < j' {
      RemInjective(i, j, j', |g.lines|);
    } else if i == i' && j' < j {
      RemInjective(i, j', j, |g.lines|);
    }
  }

  // Only slots of page i differ.
  ghost predicate OnlyPage(g: Shape, m: Memory, m': Memory, i: nat)
    requires i < |g.pages|
  {
    SameOutside(m, m', g.base + g.pages[i], g.base + g.pages[i] + g.pagesize)
  }

  method Modulo(a: nat, n: nat) returns (r: nat)
    requires n > 0
    ensures r == Rem(a, n)
  {
    QuotIsDivision(a, n);
    r := a % n;
  }

  // A store into slot (i, j) keeps the pointers of the slots (i, 0) to (i, j - 1).
  lemma KeepsSlots(g: Shape, m: Memory, m': Memory, i: nat, j: nat, j': nat)
    requires FirstWords(g).Valid() && i < |g.pages| && j' < j < |g.lines|
    requires Slot(g, i, j) in m' && m' == m[Slot(g, i, j) := m'[Slot(g, i, j)]] && Slot(g, i, j') in m
    ensures Slot(g, i, j') in m' && m'[Slot(g, i, j')] == m[Slot(g, i, j')]
  {
    SlotsDiffer(g, i, j', i, j);
  }

  /** Lines 243-251, for one page i. */
  method LinkDiagonal(g: Shape, blk: Block, m0: Memory, i: nat) returns (m: Memory)
    requires Roomy(g, blk) && i + 1 < |g.pages|
    ensures Diagonal(g, m, i, |g.lines|) && OnlyPage(g, m0, m, i)
  {
    m := m0;
    var nwords := |g.lines|;
    for j := 0 to nwords
      invariant Diagonal(g, m, i, j) && OnlyPage(g, m0, m, i)
    {
      var cur := Modulo(i + j, nwords);
      var next := Modulo(i + j + 1, nwords);
      var m1 := PointFirst(g, blk, m, i, cur, i + 1, next);
      assert i + j + 1 == i + 1 + j;
      assert Points(m1, Slot(g, i, j), Slot(g, i + 1, j));
      forall j': nat | j' < j
        ensures Points(m1, Slot(g, i, j'), Slot(g, i + 1, j'))
      {
        KeepsSlots(g, m, m1, i, j, j');
      }
      KeepsOnlyPage(g, m0, m, m1, i, cur);
      m := m1;
    }
  }

  lemma KeepsOnlyPage(g: Shape, m0: Memory, m: Memory, m': Memory, i: nat, x: nat)
    requires FirstWords(g).Valid() && i < |g.pages| && x < |g.lines| && OnlyPage(g, m0, m, i)
    requires SameOutside(m, m', g.At(i, x, 0), g.At(i, x, 0) + g.line)
    ensures OnlyPage(g, m0, m', i)
  {
  }

  /** Lines 252-258; i is the last page. */
  method CloseDiagonal(g: Shape, blk: Block, m0: Memory, i: nat) returns (m: Memory)
    requires Roomy(g, blk) && i < |g.pages|
    ensures Closed(g, m, i, |g.lines|) && OnlyPage(g, m0, m, i)
  {
    m := m0;
    var nwords := |g.lines|;
    for j := 0 to nwords
      invariant Closed(g, m, i, j) && OnlyPage(g, m0, m, i)
    {
      var cur := Modulo(i + j, nwords);
      var next := Modulo(j + 1, nwords);
      var m1 := PointFirst(g, blk, m, i, cur, 0, next);
      assert Points(m1, Slot(g, i, j), NextLap(g, j));
      forall j': nat | j' < j
        ensures Points(m1, Slot(g, i, j'), NextLap(g, j'))
      {
        KeepsSlots(g, m, m1, i, j, j');
      }
      KeepsOnlyPage(g, m0, m, m1, i, cur);
      m := m1;
    }
  }

  lemma KeepsDiagonal(g: Shape, m: Memory, m': Memory, i: nat, k: nat)
    requires FirstWords(g).Valid() && k + 1 < |g.pages| && i < |g.pages| && i != k
    requires Diagonal(g, m, k, |g.lines|) && OnlyPage(g, m, m', i)
    ensures Diagonal(g, m', k, |g.lines|)
  {
    assert FirstWords(g).words[0] == 0;
  }

  /** Where the chain leads from the first word of a line: in a page that is not the last, to the first word
      of the next line of the next page, line 0 coming after the last one; in the last page, to the line of
      the first page with which the next diagonal begins. */
  ghost predicate StepsDown(g: Shape, m: Memory, np: nat)
    requires 0 < np <= |g.pages| && g.lines != []
  {
    && (forall i: nat, i': nat, x: nat, x': nat {:trigger g.At(i, x, 0), g.At(i', x', 0)} |
          i' == i + 1 < np && x < |g.lines| && x' == (if x + 1 == |g.lines| then 0 else x + 1) ::
          Points(m, g.At(i, x, 0), g.At(i', x', 0)))
    && (forall x: nat, y: nat | ReturnsTo(x, y, np, |g.lines|) :: Points(m, g.At(np - 1, x, 0), g.At(0, y, 0)))
  }

  // From line x of the last of np pages the chain returns to line y: y + np is x + 2, modulo the lines.
  predicate ReturnsTo(x: nat, y: nat, np: nat, nlines: nat) {
    x < nlines && y < nlines && Rem(y + np, nlines) == Rem(x + 2, nlines)
  }

  lemma DiagonalSteps(g: Shape, m: Memory, i: nat, x: nat, x': nat)
    requires i + 1 < |g.pages| && x < |g.lines| && Diagonal(g, m, i, |g.lines|)
    requires x' == if x + 1 == |g.lines| then 0 else x + 1
    ensures Points(m, g.At(i, x, 0), g.At(i + 1, x', 0))
  {
    var j := RemOnto(i, x, |g.lines|);
    RemNext(i + j, |g.lines|);
    assert i + j + 1 == i + 1 + j;
    assert Points(m, Slot(g, i, j), Slot(g, i + 1, j));
  }

  lemma ClosedSteps(g: Shape, m: Memory, np: nat, x: nat, y: nat)
    requires 0 < np <= |g.pages| && ReturnsTo(x, y, np, |g.lines|) && Closed(g, m, np - 1, |g.lines|)
    ensures Points(m, g.At(np - 1, x, 0), g.At(0, y, 0))
  {
    var j := RemOnto(np - 1, x, |g.lines|);
    RemOf(0, |g.lines|, x);
    RemOf(0, |g.lines|, y);
    RemCancel(np - 1 + j, x, 2, |g.lines|);
    assert np - 1 + j + 2 == j + 1 + np;
    RemCancel(j + 1, y, np, |g.lines|);
    assert Points(m, Slot(g, np - 1, j), NextLap(g, j));
  }

  lemma LinksStepDown(g: Shape, m: Memory, np: nat)
    requires 0 < np <= |g.pages| && g.lines != []
    requires forall k: nat | k < np - 1 :: Diagonal(g, m, k, |g.lines|)
    requires Closed(g, m, np - 1, |g.lines|)
    ensures StepsDown(g, m, np)
  {
    forall i: nat, i': nat, x: nat, x': nat |
      i' == i + 1 < np && x < |g.lines| && x' == (if x + 1 == |g.lines| then 0 else x + 1)
      ensures Points(m, g.At(i, x, 0), g.At(i', x', 0))
    {
      DiagonalSteps(g, m, i, x, x');
    }
    forall x: nat, y: nat | ReturnsTo(x, y, np, |g.lines|)
      ensures Points(m, g.At(np - 1, x, 0), g.At(0, y, 0))
    {
      ClosedSteps(g, m, np, x, y);
    }
  }

  /** thrash_initialize, lines 240-258, for a whole number of pages. */
  method Link(g: Shape, blk: Block, m0: Memory, np: nat) returns (m: Memory)
    requires Roomy(g, blk) && 0 < np <= |g.pages|
    ensures IsRing(m, Ring(g, np)) && |Ring(g, np)| == Times(|g.lines|, np) && StepsDown(g, m, np)
  {
    m := m0;
    for i := 0 to np - 1
      invariant forall k: nat | k < i :: Diagonal(g, m, k, |g.lines|)
    {
      var m1 := LinkDiagonal(g, blk, m, i);
      forall k: nat | k < i
        ensures Diagonal(g, m1, k, |g.lines|)
      {
        KeepsDiagonal(g, m, m1, i, k);
      }
      m := m1;
    }
    var m1 := CloseDiagonal(g, blk, m, np - 1);
    forall k: nat | k < np - 1
      ensures Diagonal(g, m1, k, |g.lines|)
    {
      KeepsDiagonal(g, m, m1, np - 1, k);
    }
    m := m1;
    DiagonalRing(g, m, np);
    LinksStepDown(g, m, np);
  }

  lemma LapPath(g: Shape, m: Memory, np: nat, j: nat)
    requires FirstWords(g).Valid() && 0 < np <= |g.pages| && j < |g.lines|
    requires forall k: nat | k < np - 1 :: Diagonal(g, m, k, |g.lines|)
    ensures Runs(m, LapOf(g, np, j), Slot(g, 0, j), Slot(g, np - 1, j))
  {
    var r := LapOf(g, np, j);
    forall i, i' | 0 <= i && i' == i + 1 < |r|
      ensures Points(m, r[i], r[i'])
    {
      assert Diagonal(g, m, i, |g.lines|);
    }
    forall i: nat, i': nat | i < i' < |r|
      ensures r[i] != r[i']
    {
      SlotsDiffer(g, i, j, i', j);
    }
  }

  lemma LapsApart(g: Shape, np: nat, j: nat, j': nat)
    requires FirstWords(g).Valid() && np <= |g.pages| && j < j' < |g.lines|
    ensures Apart(LapOf(g, np, j), LapOf(g, np, j'))
  {
    forall i: nat, i': nat | i < np && i' < np
      ensures LapOf(g, np, j)[i] != LapOf(g, np, j')[i']
    {
      SlotsDiffer(g, i, j, i', j');
    }
  }

  lemma LapsJoined(g: Shape, m: Memory, np: nat, j: nat, j': nat)
    requires FirstWords(g).Valid() && 0 < np <= |g.pages| && j < |g.lines|
    requires forall k: nat | k < np - 1 :: Diagonal(g, m, k, |g.lines|)
    requires Closed(g, m, np - 1, |g.lines|) && j' == if j == |g.lines| - 1 then 0 else j + 1
    ensures Joined(m, LapOf(g, np, j), LapOf(g, np, j'))
  {
    LapPath(g, m, np, j);
    LapPath(g, m, np, j');
    RemOf(0, |g.lines|, j');
    if j' == 0 {
      RemOf(1, |g.lines|, 0);
    }
  }

  /** The diagonal links form one single cycle of np * (lines in a page) slots ... */
  lemma DiagonalRing(g: Shape, m: Memory, np: nat)
    requires FirstWords(g).Valid() && 0 < np <= |g.pages|
    requires forall k: nat | k < np - 1 :: Diagonal(g, m, k, |g.lines|)
    requires Closed(g, m, np - 1, |g.lines|)
    ensures IsRing(m, Ring(g, np)) && |Ring(g, np)| == Times(|g.lines|, np)
  {
    var row := LapRow(g, np);
    forall j: nat | j < |g.lines|
      ensures row(j) != [] && IsPath(m, row(j)) && Distinct(row(j))
    {
      LapPath(g, m, np, j);
    }
    forall j: nat, j': nat | j < j' < |g.lines|
      ensures Apart(row(j), row(j'))
    {
      LapsApart(g, np, j, j');
    }
    forall j: nat, j': nat | j' == j + 1 < |g.lines|
      ensures Joined(m, row(j), row(j'))
    {
      LapsJoined(g, m, np, j, j');
    }
    LapsJoined(g, m, np, |g.lines| - 1, 0);
    RowsRing(m, |g.lines|, row);
    RowsLength(|g.lines|, row, np);
  }

  /** ... each the first word of a line of one of the pages, and every such word is visited. */
  lemma RingMember(g: Shape, np: nat, a: int)
    requires FirstWords(g).Valid() && np <= |g.pages|
    ensures a in Ring(g, np) <==> exists i: nat, x: nat :: i < np && x < |g.lines| && a == g.At(i, x, 0)
  {
    RowsMember(|g.lines|, LapRow(g, np), a);
    if a in Ring(g, np) {
      var j: nat :| j < |g.lines| && a in LapRow(g, np)(j);
      var i: nat :| i < np && LapOf(g, np, j)[i] == a;
      assert a == g.At(i, Rem(i + j, |g.lines|), 0);
    }
    if i: nat, x: nat :| i < np && x < |g.lines| && a == g.At(i, x, 0) {
      var j := RemOnto(i, x, |g.lines|);
      assert LapOf(g, np, j)[i] == a;
      assert a in LapRow(g, np)(j);
    }
  }

  /** With two pages or more, every step lands on a different page. */
  lemma EveryStepChangesPage(g: Shape, np: nat, n: nat) returns (i: nat, i': nat)
    requires FirstWords(g).Valid() && 2 <= np <= |g.pages| && n < Times(|g.lines|, np)
    requires |Ring(g, np)| == Times(|g.lines|, np)
    ensures i < np && i' < np && i != i'
    ensures var s := Ring(g, np); IsOn(g, i, s[n]) && IsOn(g, i', s[if n + 1 == |s| then 0 else n + 1])
  {
    var n' := if n + 1 == Times(|g.lines|, np) then 0 else n + 1;
    PageOfStep(g, np, n);
    PageOfStep(g, np, n');
    NextRem(|g.lines|, np, n);
    i, i' := Rem(n, np), Rem(n', np);
  }

  lemma NextRem(nl: nat, np: nat, n: nat)
    requires 2 <= np && n < Times(nl, np)
    ensures Rem(if n + 1 == Times(nl, np) then 0 else n + 1, np) != Rem(n, np)
  {
    QuotIsDivision(n, np);
    var q, r := Quot(n, np), Rem(n, np);
    if r + 1 < np {
      if n + 1 == Times(nl, np) {
        LastStep(nl, np, q, r);
      }
      RemOf(q, np, r + 1);
    } else {
      RemOf(q + 1, np, 0);
    }
  }

  lemma LastStep(nl: nat, np: nat, q: nat, r: nat)
    requires r + 1 < np
    ensures Times(q, np) + r + 1 != Times(nl, np)
  {
    if q < nl {
      TimesMonotone(q + 1, nl, np);
    } else {
      TimesMonotone(nl, q, np);
    }
  }

  ghost predicate IsOn(g: Shape, i: nat, a: int)
    requires i < |g.pages|
  {
    g.base + g.pages[i] <= a < g.base + g.pages[i] + g.pagesize
  }

  lemma PageOfStep(g: Shape, np: nat, n: nat)
    requires FirstWords(g).Valid() && 0 < np <= |g.pages| && n < Times(|g.lines|, np)
    ensures n < |Ring(g, np)| && IsOn(g, Rem(n, np), Ring(g, np)[n])
  {
    QuotIsDivision(n, np);
    var q, r := Quot(n, np), Rem(n, np);
    if q >= |g.lines| {
      TimesMonotone(|g.lines|, q, np);
    }
    RowsAt(|g.lines|, LapRow(g, np), np, q, r);
    assert FirstWords(g).words[0] == 0;
  }

  // ---- Less than a page, or a broken page -----------------------------------------------------

  // The slots of lines 231-238.
  function WordSlots(base: int, words: seq<int>): seq<int> {
    seq(|words|, (i: nat) requires i < |words| => base + words[i])
  }

  // No later entry is the same.
  predicate LastUse(words: seq<int>, i: nat) {
    i < |words| && forall k :: i < k < |words| ==> words[k] != words[i]
  }

  // Where the word of entry i is to point: at the next one, and in the end at the start.
  function Follower(base: int, words: seq<int>, i: nat): int
    requires i < |words|
  {
    if i + 1 == |words| then base else base + words[i + 1]
  }

  // Among the first n entries the last use of every word counts.
  ghost predicate Follows(m: Memory, base: int, words: seq<int>, n: nat)
    requires n <= |words|
  {
    forall i: nat | i < n && LastUse(words[..n], i) :: Points(m, base + words[i], Follower(base, words, i))
  }

  lemma FollowsNext(m: Memory, base: int, words: seq<int>, n: nat)
    requires n < |words| && Follows(m, base, words, n)
    ensures Follows(m[base + words[n] := Follower(base, words, n)], base, words, n + 1)
  {
    var m' := m[base + words[n] := Follower(base, words, n)];
    forall i: nat | i < n + 1 && LastUse(words[..n + 1], i)
      ensures Points(m', base + words[i], Follower(base, words, i))
    {
      if i < n {
        assert words[..n + 1][n] == words[n] && words[..n + 1][i] == words[i];
        forall k | i < k < n
          ensures words[..n][k] != words[..n][i]
        {
          assert words[..n + 1][k] == words[k];
        }
        assert LastUse(words[..n], i);
      }
    }
  }

  /** Lines 232-238: links the words in order, and the last one back to the start; a word that occurs twice
      keeps its last link only.  The caller must provide at least one word: with none the source's loop
      bound wraps around. */
  method LinkWords(base: int, blk: Block, m0: Memory, words: seq<int>) returns (m: Memory)
    requires words != []
    requires forall i :: 0 <= i < |words| ==> blk.Holds(base + words[i])
    ensures Follows(m, base, words, |words|)
  {
    m := m0;
    for i := 0 to |words| - 1
      invariant Follows(m, base, words, i)
    {
      m := LinkWord(base, blk, m, words, i, base + words[i + 1]);
    }
    m := LinkWord(base, blk, m, words, |words| - 1, base);
  }

  method LinkWord(base: int, blk: Block, m0: Memory, words: seq<int>, i: nat, next: int) returns (m: Memory)
    requires i < |words| && blk.Holds(base + words[i]) && next == Follower(base, words, i)
    requires Follows(m0, base, words, i)
    ensures Follows(m, base, words, i + 1)
  {
    FollowsNext(m0, base, words, i);
    m := blk.Store(m0, base + words[i], next);
  }

  // What a slot points to.
  lemma SlotFollows(m: Memory, base: int, words: seq<int>, i: nat)
    requires words != [] && words[0] == 0 && Follows(m, base, words, |words|) && LastUse(words, i)
    ensures var s := WordSlots(base, words); Points(m, s[i], s[if i + 1 == |s| then 0 else i + 1])
  {
    assert words[..|words|] == words;
  }

  // Without repetitions the links make a ring ...
  lemma FollowsRing(m: Memory, base: int, words: seq<int>)
    requires words != [] && words[0] == 0 && Distinct(words) && Follows(m, base, words, |words|)
    ensures IsRing(m, WordSlots(base, words))
  {
    var s := WordSlots(base, words);
    forall i: nat | i < |s|
      ensures Points(m, s[i], s[if i + 1 == |s| then 0 else i + 1])
    {
      assert LastUse(words, i);
      SlotFollows(m, base, words, i);
    }
    SlotsRing(m, s);
    forall i, j | 0 <= i < j < |s|
      ensures s[i] != s[j]
    {
      assert words[i] != words[j];
    }
  }

  lemma SlotsRing(m: Memory, s: seq<int>)
    requires s != [] && forall i: nat | i < |s| :: Points(m, s[i], s[if i + 1 == |s| then 0 else i + 1])
    ensures IsPath(m, s) && Joined(m, s, s)
  {
    forall i: nat, j: nat | j == i + 1 < |s|
      ensures Points(m, s[i], s[j])
    {
      assert Points(m, s[i], s[if i + 1 == |s| then 0 else i + 1]);
    }
  }

  // ... and in any case they do not leave the words.
  lemma StaysOnWords(m: Memory, base: int, words: seq<int>, a: int)
    requires words != [] && words[0] == 0 && Follows(m, base, words, |words|) && a in WordSlots(base, words)
    ensures a in m && m[a] in WordSlots(base, words)
  {
    var s := WordSlots(base, words);
    var i: nat :| i < |s| && s[i] == a;
    var j := FindLast(words, i);
    SlotFollows(m, base, words, j);
  }

  lemma FindLast(words: seq<int>, i: nat) returns (j: nat)
    requires i < |words|
    ensures LastUse(words, j) && words[j] == words[i]
    decreases |words| - i
  {
    if LastUse(words, i) {
      j := i;
    } else {
      var k :| i < k < |words| && words[k] == words[i];
      j := FindLast(words, k);
    }
  }

  lemma {:induction false} WalkStaysOnWords(m: Memory, base: int, words: seq<int>, t: nat)
    requires words != [] && words[0] == 0 && Follows(m, base, words, |words|)
    ensures Walk(m, base, t) in WordSlots(base, words)
  {
    if t == 0 {
      assert WordSlots(base, words)[0] == base;
    } else {
      WalkStaysOnWords(m, base, words, t - 1);
      StaysOnWords(m, base, words, Walk(m, base, t - 1));
    }
  }

  // A ring through base is all on the words.
  lemma RingOnWords(m: Memory, base: int, words: seq<int>, ring: seq<int>, a: int)
    requires words != [] && words[0] == 0 && Follows(m, base, words, |words|)
    requires IsRing(m, ring) && base in ring && a in ring
    ensures a in WordSlots(base, words)
  {
    var start: nat :| start < |ring| && ring[start] == base;
    var x: nat :| x < |ring| && ring[x] == a;
    var t := if x >= start then x - start else x + |ring| - start;
    DivUnique(start + t, |ring|, if x >= start then 0 else 1, x);
    WalkOnRing(m, ring, start, t);
    WalkStaysOnWords(m, base, words, t);
  }

  // The chase from base goes round a ring of n slots.
  ghost predicate RingOf(m: Memory, base: int, n: nat) {
    exists ring :: IsRing(m, ring) && base in ring && |ring| == n
  }

  /** The chase over a broken page goes round len / line words if and only if that is a power of two:
      otherwise words_initialize repeats an offset, and no ring of that many words goes through the start. */
  lemma PartialRingIff(base: int, m: Memory, nwords: nat, line: nat)
    requires nwords > 0 && line > 0 && Follows(m, base, Order(nwords, line), nwords)
    ensures RingOf(m, base, nwords) <==> IsPow2(nwords)
    ensures IsPow2(nwords) ==> IsRing(m, WordSlots(base, Order(nwords, line)))
  {
    OrderDistinctIff(nwords, line);
    OrderFirst(nwords, line);
    var s, words := WordSlots(base, Order(nwords, line)), Order(nwords, line);
    if IsPow2(nwords) {
      FollowsRing(m, base, words);
      assert s[0] == base;
    }
    if ring :| IsRing(m, ring) && base in ring && |ring| == nwords {
      forall a | a in ring
        ensures a in s
      {
        RingOnWords(m, base, words, ring, a);
      }
      NoRoomToRepeat(ring, s);
      forall i, j | 0 <= i < j < |words|
        ensures words[i] != words[j]
      {
        assert s[i] != s[j];
      }
    }
  }

  /** For example, with three words the first one is left pointing at itself. */
  lemma ThreeWordsStick(base: int, m: Memory, line: nat)
    requires line > 0 && Follows(m, base, Order(3, line), 3)
    ensures Points(m, base, base)
  {
    var words := Order(3, line);
    assert Rev(2, 1) == 0 && words[2] == 0;
    assert words[..3] == words && LastUse(words, 2);
  }

  lemma WordsInBlock(base: int, lo: int, hi: int, max: nat, line: nat, words: seq<int>)
    requires max > 0 && line >= WORD && line % WORD == 0 && words == Order(max, line)
    requires lo <= base && base % WORD == 0 && base + Times(max, line) <= hi
    ensures words[0] == 0 && forall i :: 0 <= i < max ==> Block(lo, hi).Holds(base + words[i])
  {
    OrderFirst(max, line);
    forall i: nat | i < max
      ensures Block(lo, hi).Holds(base + words[i])
    {
      WordOffset(max, line, i);
      Offset(base, lo, hi, words[i], Times(max, line), line);
    }
  }

  lemma OrderFirst(max: nat, line: nat)
    requires max > 0
    ensures Order(max, line)[0] == 0
  {
    RevZero(Log2(max));
    assert Order(max, line)[0] == Rev(0, Log2(max)) * line == 0;
  }

  lemma Offset(base: int, lo: int, hi: int, w: int, len: int, line: int)
    requires lo <= base && base % WORD == 0 && base + len <= hi && line >= WORD
    requires 0 <= w <= len - line && w % WORD == 0
    ensures Block(lo, hi).Holds(base + w)
  {
  }

  lemma WordOffset(max: nat, line: nat, i: nat)
    requires i < max && line >= WORD && line % WORD == 0
    ensures var w := Order(max, line)[i]; 0 <= w <= Times(max, line) - line && w % WORD == 0
  {
    var r := Rev(i, Log2(max));
    RevBound(i, Log2(max));
    Multiple(r, max, line);
    TimesIsProduct(max, line);
    ModOfMultiple(r * line, line, WORD);
  }

  // What thrash_initialize builds over whole pages: the diagonal ring, and a chase that starts on it.
  ghost predicate OverPages(g: Shape, blk: Block, m: Memory, p: map<nat, int>, np: nat) {
    && 0 < np <= |g.pages| && Roomy(g, blk)
    && IsRing(m, Ring(g, np)) && |Ring(g, np)| == Times(|g.lines|, np) && StepsDown(g, m, np)
    && p == map[0 := g.base + g.pages[0]] && Ring(g, np)[0] == g.base + g.pages[0]
  }

  // And over a broken page.
  ghost predicate OverWords(base: int, m: Memory, p: map<nat, int>, nwords: nat) {
    p == map[0 := base] && (RingOf(m, base, nwords) <==> IsPow2(nwords))
  }

  // What a call leaves for the next one, if it was the first to succeed.
  ghost predicate Prepared(state: MemState)
    reads state, state.pages
  {
    && state.Geometry().PagesIn(state.Malloced()) && state.addr <= state.base < state.addr + state.pagesize
    && (Rem(state.len, state.pagesize) == 0 ==> state.HasSizes())
  }

  // What every successful call leaves, by the two branches of the source.
  ghost predicate Thrashed(state: MemState)
    requires state.pagesize > 0 && state.line > 0
    reads state, state.pages
  {
    if Rem(state.len, state.pagesize) == 0 then
      && OverPages(state.Geometry(), state.Malloced(), state.cells, state.p, state.npages)
      && state.lines == Order(state.nlines, state.line)
    else
      OverWords(state.base, state.cells, state.p, Quot(state.len, state.line))
  }

  /** thrash_initialize.  With iterations base_initialize does nothing, and what an earlier call has set up
      is threaded anew; without an earlier call nothing happens. */
  method ThrashInitialize(state: MemState, iterations: nat, block: nat, rnd: nat -> nat)
    requires Sane(state.line, state.pagesize) && state.line <= state.len <= state.maxlen
    requires iterations > 0 && state.initialized ==> Prepared(state)
    modifies state
    ensures state.Config() == old(state.Config())
    ensures state.initialized == if iterations == 0 then block != 0 else old(state.initialized)
    ensures state.initialized ==> Prepared(state) && Thrashed(state)
    ensures iterations > 0 ==> state.pages == old(state.pages) && state.base == old(state.base)
    ensures iterations > 0 && !old(state.initialized) ==> unchanged(state)
  {
    if iterations == 0 {
      state.BaseInitialize(block, rnd);
    }
    if state.initialized {
      LinkAnew(state);
    }
  }

  // Lines 216-261.
  method LinkAnew(state: MemState)
    requires Sane(state.line, state.pagesize) && state.line <= state.len <= state.maxlen && Prepared(state)
    modifies state`nwords, state`lines, state`words, state`cells, state`p
    ensures Prepared(state) && Thrashed(state)
  {
    QuotIsDivision(state.len, state.pagesize);
    if state.len % state.pagesize != 0 {
      ThrashWords(state);
    } else {
      ThrashPages(state);
    }
  }

  method ThrashWords(state: MemState)
    requires 0 < state.line && state.line % WORD == 0 && state.line <= state.len <= state.maxlen
    requires state.Geometry().PagesIn(state.Malloced())
    requires state.addr <= state.base < state.addr + state.pagesize
    modifies state`nwords, state`words, state`cells, state`p
    ensures OverWords(state.base, state.cells, state.p, Quot(state.len, state.line))
  {
    QuotIsDivision(state.len, state.line);
    QuotAtLeast(state.len, state.line, 1);
    var nwords: nat := state.len / state.line;
    var w := WordsInitialize(nwords, state.line);
    var words := w[..];
    var blk := state.Malloced();
    WordsInBlock(state.base, blk.lo, blk.hi, nwords, state.line, words);
    var m := LinkWords(state.base, blk, state.cells, words);
    PartialRingIff(state.base, m, nwords, state.line);
    state.nwords, state.words, state.cells, state.p := nwords, words, m, map[0 := state.base];
  }

  method ThrashPages(state: MemState)
    requires state.HasSizes() && state.Geometry().PagesIn(state.Malloced())
    modifies state`lines, state`cells, state`p
    ensures OverPages(state.Geometry(), state.Malloced(), state.cells, state.p, state.npages)
    ensures state.lines == Order(state.nlines, state.line)
  {
    LinesRoomy(state.Geometry(), state.Malloced(), state.nlines, state.nwords);
    var l := WordsInitialize(state.nlines, state.line);
    var g := state.Geometry().(lines := l[..]);
    var m := Link(g, state.Malloced(), state.cells, state.npages);
    state.lines, state.cells, state.p := g.lines, m, map[0 := g.base + g.pages[0]];
    OrderFirst(state.nlines, state.line);
    FirstSlot(g, state.npages);
    assert state.Geometry() == g;
  }

  lemma FirstSlot(g: Shape, np: nat)
    requires 0 < np <= |g.pages| && g.lines != [] && g.lines[0] == 0
    ensures |Ring(g, np)| > 0 && Ring(g, np)[0] == g.base + g.pages[0]
  {
    RowsAt(|g.lines|, LapRow(g, np), np, 0, 0);
  }
}
