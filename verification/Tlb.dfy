/** tlb_initialize (lib_mem.c): one word on each of many separately allocated pages. */
module Tlb {
  import opened Arith
  import opened Bits
  import opened Rings
  import opened Words
  import opened Permutation
  import opened Layout
  import opened LibMem

  // ---- The shuffle -------------------------------------------------------------------------

  // Entry x of a is either entry x of s, or an entry of s from behind position n.
  ghost predicate FromBehind(a: seq<int>, s: seq<int>, x: int, n: nat)
    requires 0 <= x < |a| == |s|
  {
    a[x] == s[x] || exists y | n < y < |s| :: a[x] == s[y]
  }

  // s, shuffled down to position n: what is behind n is final.
  ghost predicate ShuffledTo(a: seq<int>, s: seq<int>, n: nat) {
    && |a| == |s| > 0 && multiset(a) == multiset(s) && a[0] == s[0]
    && (forall x | 1 <= x <= n && x < |a| :: FromBehind(a, s, x, n))
    && (forall x | n < x < |a| :: a[x] != s[x])
    && (n == 1 && |s| >= 3 ==> a[1] != s[1])
  }

  // What the shuffle draws for a position: the ones before it, but never 0; position 1 keeps what it has got.
  function DrawAt(n: nat, rnd: nat -> nat): (d: nat)
    ensures d <= n && (n >= 2 ==> 1 <= d < n)
  {
    if n < 2 then n else rnd(n - 1) % (n - 1) + 1
  }

  function PageDraws(max: nat, rnd: nat -> nat): (d: seq<nat>)
    ensures Draws(d, max)
  {
    seq(max, (n: nat) => DrawAt(n, rnd))
  }

  lemma NothingDrawn(s: seq<int>, d: seq<nat>)
    requires |s| >= 2 && Draws(d, |s|) && d[1] == 1
    ensures Shuffled(s, d, 1) == s
  {
    assert Swap(s, 1, 1) == s;
  }

  // Positions n and q have been swapped.
  lemma OneSwap(s: seq<int>, n: nat, q: nat)
    requires n < |s| && q < |s|
    ensures s[q := s[n]][n := s[q]] == Swap(s, n, q)
  {
  }

  /** Different draws give different orders of the pages. */
  lemma OrdersDiffer(s: seq<int>, rnd: nat -> nat, rnd': nat -> nat, n: nat)
    requires Distinct(s) && 2 <= n < |s|
    requires Shuffled(s, PageDraws(|s|, rnd), |s| - 1) == Shuffled(s, PageDraws(|s|, rnd'), |s| - 1)
    ensures rnd(n - 1) % (n - 1) == rnd'(n - 1) % (n - 1)
  {
    SameEntry(s, PageDraws(|s|, rnd), PageDraws(|s|, rnd'), n);
    EntryOf(|s|, rnd, n);
    EntryOf(|s|, rnd', n);
    SameDraw(n, rnd, rnd');
  }

  lemma SameEntry(s: seq<int>, d: seq<nat>, d': seq<nat>, n: nat)
    requires Distinct(s) && n < |s| && Draws(d, |s|) && Draws(d', |s|)
    requires Shuffled(s, d, |s| - 1) == Shuffled(s, d', |s| - 1)
    ensures d[n] == d'[n]
  {
    DrawsDiffer(s, d, d', |s| - 1);
  }

  lemma EntryOf(max: nat, rnd: nat -> nat, n: nat)
    requires n < max
    ensures PageDraws(max, rnd)[n] == DrawAt(n, rnd)
  {
  }

  lemma SameDraw(n: nat, rnd: nat -> nat, rnd': nat -> nat)
    requires n >= 2 && DrawAt(n, rnd) == DrawAt(n, rnd')
    ensures rnd(n - 1) % (n - 1) == rnd'(n - 1) % (n - 1)
  {
  }

  // What is still to be drawn turns a into what s is turned into.
  predicate OnTheWay(a: seq<int>, s: seq<int>, d: seq<nat>, i: nat) {
    i < |a| == |s| && Draws(d, |s|) && Shuffled(a, d, i) == Shuffled(s, d, |s| - 1)
  }

  /** Lines 472-479.  rnd yields the values r takes; nothing is known about them.  The first page
      stays; the others are permuted, and with three pages or more none of them stays in place. */
  method Shuffle(pages: array<int>, rnd: nat -> nat)
    requires Distinct(pages[..]) && pages.Length > 0
    modifies pages
    ensures pages[..] == Shuffled(old(pages[..]), PageDraws(pages.Length, rnd), pages.Length - 1)
    ensures multiset(pages[..]) == multiset(old(pages[..]))
    ensures pages[0] == old(pages[0])
    ensures pages.Length >= 3 ==> forall x :: 1 <= x < pages.Length ==> pages[x] != old(pages[x])
  {
    ghost var s, d := pages[..], PageDraws(pages.Length, rnd);
    var i := pages.Length - 2;
    while i > 0
      invariant i <= pages.Length - 2
      invariant if pages.Length < 3 then pages[..] == s else 0 <= i && ShuffledTo(pages[..], s, i + 1)
      invariant pages.Length >= 2 ==> 0 <= i && OnTheWay(pages[..], s, d, i + 1)
    {
      ShuffleOne(pages, s, i, rnd, d);
      i := i - 1;
    }
    if pages.Length >= 2 {
      NothingDrawn(pages[..], d);
    }
    if pages.Length >= 3 {
      NoneInPlace(pages[..], s);
    }
  }

  lemma NoneInPlace(a: seq<int>, s: seq<int>)
    requires |s| >= 3 && ShuffledTo(a, s, 1)
    ensures forall x :: 1 <= x < |a| ==> a[x] != s[x]
  {
  }

  method ShuffleOne(pages: array<int>, ghost s: seq<int>, i: nat, rnd: nat -> nat, ghost d: seq<nat>)
    requires 0 < i && i + 1 < pages.Length && Distinct(s) && ShuffledTo(pages[..], s, i + 1)
    requires d == PageDraws(pages.Length, rnd) && OnTheWay(pages[..], s, d, i + 1)
    modifies pages
    ensures ShuffledTo(pages[..], s, i) && OnTheWay(pages[..], s, d, i)
  {
    ghost var a := pages[..];
    var r := rnd(i);
    var q := r % i + 1;
    SwapKeeps(pages[..], s, i + 1, q);
    var l := pages[q];
    pages[q] := pages[i + 1];
    pages[i + 1] := l;
    assert pages[..] == a[q := a[i + 1]][i + 1 := a[q]];
    OneSwap(a, i + 1, q);
    assert d[i + 1] == q;
  }

  lemma SwapKeeps(a: seq<int>, s: seq<int>, n: nat, q: int)
    requires 1 <= q < n < |a| && Distinct(s) && ShuffledTo(a, s, n)
    ensures ShuffledTo(a[q := a[n]][n := a[q]], s, n - 1)
  {
    var b := a[q := a[n]][n := a[q]];
    MovedFromBehind(a, s, n, q);
    assert b[n] != s[n] by {
      assert FromBehind(a, s, q, n);
    }
    var n' := n - 1;
    forall x | 1 <= x <= n' && x < |b|
      ensures FromBehind(b, s, x, n')
    {
      if x != q {
        StillFromBehind(a, b, s, x, n);
      }
    }
  }

  // The entry that comes down from position n is from behind.
  lemma MovedFromBehind(a: seq<int>, s: seq<int>, n: nat, q: int)
    requires 1 <= q < n < |a| && ShuffledTo(a, s, n)
    ensures exists y | n - 1 < y < |s| :: a[n] == s[y]
  {
    assert FromBehind(a, s, n, n);
    if a[n] != s[n] {
      var y :| n < y < |s| && a[n] == s[y];
    }
  }

  lemma StillFromBehind(a: seq<int>, b: seq<int>, s: seq<int>, x: int, n: nat)
    requires 1 <= x < n < |a| == |b| && ShuffledTo(a, s, n) && b[x] == a[x]
    ensures FromBehind(b, s, x, n - 1)
  {
    assert FromBehind(a, s, x, n);
    if a[x] != s[x] {
      var y :| n < y < |s| && a[x] == s[y];
    }
  }

  // ---- The ring ----------------------------------------------------------------------------

  // Page i uses line i of the page, modulo the number of lines.
  function Slot(pages: seq<int>, lines: seq<int>, i: nat): int
    requires i < |pages| && lines != []
  {
    pages[i] + lines[Rem(i, |lines|)]
  }

  function Ring(pages: seq<int>, lines: seq<int>): seq<int>
    requires lines != []
  {
    seq(|pages|, (i: nat) requires i < |pages| => Slot(pages, lines, i))
  }

  // Pages do not overlap and lines lie in a page; everything is aligned.
  ghost predicate Separate(pages: seq<int>, lines: seq<int>, pagesize: nat) {
    && Spaced(pages, pagesize) && lines != []
    && (forall i :: 0 <= i < |pages| ==> pages[i] % WORD == 0)
    && (forall j :: 0 <= j < |lines| ==> 0 <= lines[j] <= pagesize - WORD && lines[j] % WORD == 0)
  }

  // Page i, as a block of its own.
  function PageBlock(pages: seq<int>, i: nat, pagesize: nat): Block
    requires i < |pages|
  {
    Block(pages[i], pages[i] + pagesize)
  }

  lemma SlotOnPage(pages: seq<int>, lines: seq<int>, pagesize: nat, i: nat)
    requires Separate(pages, lines, pagesize) && i < |pages|
    ensures PageBlock(pages, i, pagesize).Holds(Slot(pages, lines, i))
  {
    AlignedSum(pages[i], lines[Rem(i, |lines|)], 0);
  }

  lemma SlotsDiffer(pages: seq<int>, lines: seq<int>, pagesize: nat, i: nat, j: nat)
    requires Separate(pages, lines, pagesize) && i < |pages| && j < |pages| && i != j
    ensures Slot(pages, lines, i) != Slot(pages, lines, j)
  {
  }

  // The address i-th in line for a pointer.
  method SlotOf(pages: array<int>, lines: seq<int>, i: nat) returns (a: int)
    requires i < pages.Length && lines != []
    ensures a == Slot(pages[..], lines, i)
  {
    QuotIsDivision(i, |lines|);
    a := pages[i] + lines[i % |lines|];
  }

  // With two lines or more, neighbouring pages use different lines.
  lemma NeighboursDiffer(i: nat, n: nat)
    requires n >= 2
    ensures Rem(i, n) != Rem(i + 1, n)
  {
    RemNext(i, n);
  }

  /** Where the chain leads: from page i, at line i modulo the number of lines, to page i + 1, one line further
      on, and from the last page to line 0 of the first. */
  ghost predicate OneLineOn(m: Memory, pages: seq<int>, lines: seq<int>)
    requires pages != [] && lines != []
  {
    && (forall i: nat, i': nat {:trigger pages[i], pages[i']} | i' == i + 1 < |pages| ::
          Points(m, pages[i] + lines[i % |lines|], pages[i'] + lines[i' % |lines|]))
    && Points(m, pages[|pages| - 1] + lines[(|pages| - 1) % |lines|], pages[0] + lines[0])
  }

  lemma RingIsOneLineOn(m: Memory, pages: seq<int>, lines: seq<int>)
    requires pages != [] && lines != [] && IsRing(m, Ring(pages, lines))
    ensures OneLineOn(m, pages, lines)
  {
    var ring, n := Ring(pages, lines), |pages|;
    forall i: nat, i': nat | i' == i + 1 < n
      ensures Points(m, pages[i] + lines[i % |lines|], pages[i'] + lines[i' % |lines|])
    {
      QuotIsDivision(i, |lines|);
      QuotIsDivision(i', |lines|);
      assert Points(m, ring[i], ring[i']);
    }
    QuotIsDivision(n - 1, |lines|);
    assert Points(m, ring[n - 1], ring[0]);
  }

  /** Lines 482-487: the chain is one single cycle with exactly one word on each page.  With no page
      at all the source reads pages[0]. */
  method Link(pages: array<int>, lines: seq<int>, pagesize: nat, m0: Memory) returns (m: Memory)
    requires pages.Length > 0 && Separate(pages[..], lines, pagesize)
    ensures IsRing(m, Ring(pages[..], lines)) && |Ring(pages[..], lines)| == pages.Length
    ensures OneLineOn(m, pages[..], lines)
  {
    m := m0;
    ghost var s, ring := pages[..], Ring(pages[..], lines);
    var n := pages.Length;
    for i := 0 to n - 1
      invariant forall k, k' {:trigger ring[k], ring[k']} :: 0 <= k < i && k' == k + 1 ==> Points(m, ring[k], ring[k'])
    {
      var a := SlotOf(pages, lines, i);
      var b := SlotOf(pages, lines, i + 1);
      forall k: nat | k < i
        ensures ring[k] != a
      {
        SlotsDiffer(s, lines, pagesize, k, i);
      }
      SlotOnPage(s, lines, pagesize, i);
      m := PageBlock(pages[..], i, pagesize).Store(m, a, b);
    }
    var a := SlotOf(pages, lines, n - 1);
    forall k: nat | k < n - 1
      ensures ring[k] != a
    {
      SlotsDiffer(s, lines, pagesize, k, n - 1);
    }
    SlotOnPage(s, lines, pagesize, n - 1);
    m := PageBlock(pages[..], n - 1, pagesize).Store(m, a, pages[0] + lines[0]);
    forall i, j | 0 <= i < j < |ring|
      ensures ring[i] != ring[j]
    {
      SlotsDiffer(s, lines, pagesize, i, j);
    }
    RingIsOneLineOn(m, pages[..], lines);
  }

  // The offsets of words in a page.
  lemma LinesFit(pagesize: nat, nlines: nat)
    requires IsPow2(nlines) && nlines * WORD == pagesize
    ensures forall j :: 0 <= j < |Order(nlines, WORD)| ==>
              0 <= Order(nlines, WORD)[j] <= pagesize - WORD && Order(nlines, WORD)[j] % WORD == 0
    ensures Order(nlines, WORD) != []
  {
    OrderFacts(nlines, WORD);
  }

  lemma SpacedReordered(s: seq<int>, t: seq<int>, gap: nat)
    requires multiset(s) == multiset(t) && Spaced(t, gap) && gap > 0
    ensures Spaced(s, gap)
  {
    SameMembers(s, t);
    SameDistinct(s, t);
    forall i, j | 0 <= i < |s| && 0 <= j < |s| && i != j
      ensures s[i] + gap <= s[j] || s[j] + gap <= s[i]
    {
      assert s[i] in s && s[j] in s;
      var x :| 0 <= x < |t| && t[x] == s[i];
      var y :| 0 <= y < |t| && t[y] == s[j];
      assert x != y;
    }
  }

  lemma AlignedReordered(s: seq<int>, t: seq<int>)
    requires multiset(s) == multiset(t) && forall i :: 0 <= i < |t| ==> t[i] % WORD == 0
    ensures forall i :: 0 <= i < |s| ==> s[i] % WORD == 0
  {
    SameMembers(s, t);
    forall i | 0 <= i < |s|
      ensures s[i] % WORD == 0
    {
      assert s[i] in s;
    }
  }

  /** tlb_initialize, lines 440-487, given the pages valloc returned, which are aligned. */
  method TlbInitialize(pages: array<int>, pagesize: nat, rnd: nat -> nat) returns (m: Memory, start: int)
    requires pages.Length > 0 && IsPow2(pagesize / WORD) && pagesize % WORD == 0 && Spaced(pages[..], pagesize)
    requires forall i :: 0 <= i < pages.Length ==> pages[i] % WORD == 0
    modifies pages
    ensures multiset(pages[..]) == multiset(old(pages[..])) && pages[0] == old(pages[0])
    ensures pages.Length >= 3 ==> forall x :: 1 <= x < pages.Length ==> pages[x] != old(pages[x])
    ensures var lines := Order(pagesize / WORD, WORD);
      && lines != [] && IsRing(m, Ring(pages[..], lines)) && OneLineOn(m, pages[..], lines)
      && start == pages[0] + lines[0] && start in Ring(pages[..], lines)
  {
    LinesFit(pagesize, pagesize / WORD);
    var w := WordsInitialize(pagesize / WORD, WORD);
    var lines := w[..];
    ghost var s := pages[..];
    assert pagesize > 0;
    Shuffle(pages, rnd);
    SpacedReordered(pages[..], s, pagesize);
    AlignedReordered(pages[..], s);
    m := Link(pages, lines, pagesize, map[]);
    start := pages[0] + lines[0];
    assert start == Ring(pages[..], lines)[0];
  }
}
