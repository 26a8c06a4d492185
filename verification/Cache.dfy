/** measure and remove_chunk (cache.c): rewiring a ring for a smaller size, and putting it back. */
module Cache {
  import opened Arith
  import opened Rings
  import opened Layout
  import opened MemRing

  /** What mem_initialize leaves and measure relies on, whatever the order of the pages: inside
      every page each line is linked to the next. */
  ghost predicate WithinPages(g: Shape, m: Memory) {
    g.lines != [] && forall i: nat | i < |g.pages| :: g.LinkedInPage(m, i, |g.lines|)
  }

  // Page order does not matter.
  lemma WithinPagesReordered(g: Shape, pages: seq<int>, m: Memory)
    requires WithinPages(g, m) && forall x :: x in pages ==> x in g.pages
    ensures WithinPages(g.(pages := pages), m)
  {
    var h := g.(pages := pages);
    forall i: nat | i < |pages|
      ensures h.LinkedInPage(m, i, |g.lines|)
    {
      assert pages[i] in pages;
      var k: nat :| k < |g.pages| && g.pages[k] == pages[i];
      assert g.LinkedInPage(m, k, |g.lines|);
      forall j: nat, j': nat, b | j' == j + 1 < |g.lines| && b in g.words
        ensures Points(m, h.At(i, j, b), h.At(i, j', b))
      {
        assert Points(m, g.At(k, j, b), g.At(k, j', b));
      }
    }
  }

  // a is a word of line j of one of the first np pages.
  ghost predicate InLines(g: Shape, a: int, np: nat, j: nat)
    requires np <= |g.pages| && j < |g.lines|
  {
    exists i: nat | i < np :: g.InLine(a, i, j)
  }

  // Nothing has changed but the words of the last lines of the first np pages.
  ghost predicate OnlyLastLines(g: Shape, m: Memory, m': Memory, np: nat)
    requires np <= |g.pages| && g.lines != []
  {
    forall a: int :: !InLines(g, a, np, |g.lines| - 1) ==> (a in m <==> a in m') && (a in m ==> m[a] == m'[a])
  }

  // A store into the last line of a page leaves the links inside the pages in place.
  lemma KeepsWithin(g: Shape, m: Memory, m': Memory, i: nat)
    requires g.Valid() && WithinPages(g, m) && i < |g.pages|
    requires g.OnlyLine(m, m', i, |g.lines| - 1)
    ensures WithinPages(g, m')
  {
    g.OnlyLineOutside(m, m', i, |g.lines| - 1);
    forall i': nat | i' < |g.pages|
      ensures g.LinkedInPage(m', i', |g.lines|)
    {
      g.KeepsLines(m, m', i, |g.lines| - 1, i', |g.lines|);
    }
  }

  // Page links made so far: each of the first n pages points at the next one.
  ghost predicate Chained(g: Shape, m: Memory, n: nat)
    requires n < |g.pages|
  {
    forall i: nat, i': nat | i < n && i' == i + 1 :: g.LinkedTo(m, i, i')
  }

  lemma KeepsChained(g: Shape, m: Memory, m': Memory, n: nat, i: nat, j: nat)
    requires g.Valid() && n <= i < |g.pages| && j < |g.lines|
    requires Chained(g, m, n) && g.OnlyLine(m, m', i, j)
    ensures Chained(g, m', n)
  {
    g.OnlyLineOutside(m, m', i, j);
    forall k: nat, k': nat | k < n && k' == k + 1
      ensures g.LinkedTo(m', k, k')
    {
      assert g.LinkedTo(m, k, k');
    }
  }

  /** Lines 409-415: chains the first np pages. */
  method ChainPages(g: Shape, blk: Block, m0: Memory, np: nat) returns (m: Memory)
    requires g.Usable(blk) && 0 < np <= |g.pages| && WithinPages(g, m0)
    ensures WithinPages(g, m) && Chained(g, m, np - 1)
    ensures OnlyLastLines(g, m0, m, np - 1)
  {
    m := m0;
    for i := 0 to np - 1
      invariant WithinPages(g, m) && Chained(g, m, i)
      invariant OnlyLastLines(g, m0, m, i)
    {
      var m1 := LinkToPage(g, blk, m, i, i + 1);
      KeepsWithin(g, m, m1, i);
      KeepsChained(g, m, m1, i, i, |g.lines| - 1);
      m := m1;
    }
  }

  /** Lines 409-419: the ring for np pages, the last of them with only its first `last` lines. */
  method Rewire(g: Shape, blk: Block, m0: Memory, np: nat, last: nat) returns (m: Memory, ghost chained: Memory)
    requires g.Usable(blk) && WithinPages(g, m0) && g.Fits(np, last)
    ensures g.Linked(m, np, last)
    ensures WithinPages(g, chained) && OnlyLastLines(g, m0, chained, np - 1)
    ensures g.OnlyLine(chained, m, np - 1, last - 1)
  {
    var m1 := ChainPages(g, blk, m0, np);
    chained := m1;
    m := CloseRing(g, blk, m1, np, last - 1);
    ChainedAreDone(g, m1, np, last);
    FinishLinks(g, m1, m, np, last);
  }

  lemma ChainedAreDone(g: Shape, m: Memory, np: nat, last: nat)
    requires g.Fits(np, last) && WithinPages(g, m) && Chained(g, m, np - 1)
    ensures g.PagesDone(m, np, np, last)
  {
    forall i: nat | i < np
      ensures g.LinkedInPage(m, i, g.LinesOn(i, np, last))
    {
      assert g.LinkedInPage(m, i, |g.lines|);
    }
  }

  // The first k words of line j of page i point to line j + 1.
  ghost predicate Back(g: Shape, m: Memory, i: nat, j: nat, k: nat)
    requires i < |g.pages| && j + 1 < |g.lines| && k <= |g.words|
  {
    forall k': nat | k' < k :: Points(m, g.At(i, j, g.words[k']), g.At(i, j + 1, g.words[k']))
  }

  lemma AllBack(g: Shape, before: Memory, m: Memory, i: nat, j: nat)
    requires i < |g.pages| && j + 1 < |g.lines|
    requires g.OnlyLine(before, m, i, j) && g.LinkedInPage(before, i, |g.lines|) && Back(g, m, i, j, |g.words|)
    ensures m == before
  {
    forall a: int
      ensures (a in m <==> a in before) && (a in m ==> m[a] == before[a])
    {
      if g.InLine(a, i, j) {
        var b := a - g.At(i, j, 0);
        assert Points(before, g.At(i, j, b), g.At(i, j + 1, b));
        var k: nat :| k < |g.words| && g.words[k] == b;
        assert Points(m, g.At(i, j, g.words[k]), g.At(i, j + 1, g.words[k]));
      }
    }
  }

  /** Lines 448-453: points line j of page i at line j + 1 again. */
  method Restore(g: Shape, blk: Block, m0: Memory, i: nat, j: nat, ghost before: Memory) returns (m: Memory)
    requires g.Usable(blk) && i < |g.pages| && j + 1 < |g.lines|
    requires g.OnlyLine(before, m0, i, j) && g.LinkedInPage(before, i, |g.lines|)
    ensures m == before
  {
    m := m0;
    for k := 0 to |g.words|
      invariant g.OnlyLine(before, m, i, j) && Back(g, m, i, j, k)
    {
      var v := g.base + g.pages[i] + g.lines[j + 1] + g.words[k];
      WordStore(g, blk, before, m, i, j, k, v);
      m := blk.Store(m, g.base + g.pages[i] + g.lines[j] + g.words[k], v);
    }
    AllBack(g, before, m, i, j);
  }

  // ---- measure -------------------------------------------------------------------

  // The number of pages measure chains for a size, and of lines it uses on the last of them.
  function PagesFor(size: nat, pagesize: nat): nat
    requires pagesize > 0
  {
    Quot(size, pagesize) + if Rem(size, pagesize) == 0 then 0 else 1
  }

  function LinesFor(size: nat, pagesize: nat, line: nat, nlines: nat): nat
    requires pagesize > 0 && line > 0
  {
    if Rem(size, pagesize) == 0 then nlines else Quot(Rem(size, pagesize), line)
  }

  /** Lines 396-400. */
  method Sizing(size: nat, line: nat, pagesize: nat, statelines: nat) returns (npages: nat, nlines: nat)
    requires line > 0 && pagesize > 0
    ensures npages == PagesFor(size, pagesize) && nlines == LinesFor(size, pagesize, line, statelines)
  {
    RoundUp(size, pagesize);
    npages := (size + pagesize - 1) / pagesize;
    nlines := statelines;
    if size % pagesize != 0 {
      QuotIsDivision(size % pagesize, line);
      nlines := size % pagesize / line;
    }
  }

  lemma RoundUp(size: nat, ps: nat)
    requires ps > 0
    ensures (size + ps - 1) / ps == PagesFor(size, ps) && Rem(size, ps) == size % ps
  {
    QuotIsDivision(size, ps);
    var q, r := size / ps, size % ps;
    if r == 0 {
      DivUnique(size + ps - 1, ps, q, ps - 1);
    } else {
      DivUnique(size + ps - 1, ps, q + 1, r - 1);
    }
  }

  // A ring of these dimensions exists, with no more bytes than the size allows.
  lemma SizingFits(size: nat, line: nat, ps: nat, nlines: nat, npages: nat)
    requires line > 0 && ps > 0 && Times(nlines, line) == ps && 0 < size <= Times(npages, ps)
    requires Rem(size, ps) == 0 || Rem(size, ps) >= line
    ensures 0 < PagesFor(size, ps) <= npages && 0 < LinesFor(size, ps, line, nlines) <= nlines
    ensures Times(Times(PagesFor(size, ps) - 1, nlines) + LinesFor(size, ps, line, nlines), line) <= size
  {
    var np, last, q, r := PagesFor(size, ps), LinesFor(size, ps, line, nlines), Quot(size, ps), Rem(size, ps);
    QuotIsDivision(size, ps);
    QuotIsDivision(r, line);
    TimesTimes(np - 1, nlines, line);
    TimesAdd(Times(np - 1, nlines), last, line);
    if np > npages {
      TimesMonotone(npages, np - 1, ps);
    }
    if r > 0 {
      QuotAtLeast(r, line, 1);
      if last > nlines {
        TimesMonotone(nlines, last, line);
      }
    }
  }

  // How many pointers the warm-up walk follows.
  function WarmSteps(size: nat): nat {
    (size / WORD + 100) / 100 * 100
  }

  // It makes at least as many steps as the ring has slots.
  lemma WarmUpIsLong(g: Shape, np: nat, last: nat, size: nat)
    requires g.Fits(np, last) && |g.words| * WORD == g.line
    requires Times(g.LapLen(np, last), g.line) <= size
    ensures Times(|g.words|, g.LapLen(np, last)) <= WarmSteps(size)
  {
    var n := g.LapLen(np, last);
    TimesIsProduct(n, g.line);
    TimesIsProduct(|g.words|, n);
    assert n * (|g.words| * WORD) == |g.words| * n * WORD;
  }

  // A walk of that length visits every slot of the ring.
  lemma WarmsUp(g: Shape, m: Memory, np: nat, last: nat, size: nat)
    requires g.Valid() && g.Fits(np, last) && g.Linked(m, np, last) && |g.words| * WORD == g.line
    requires Times(g.LapLen(np, last), g.line) <= size
    ensures IsRing(m, g.Ring(np, last)) && |g.Ring(np, last)| == Times(|g.words|, g.LapLen(np, last))
    ensures g.Ring(np, last)[0] == g.At(0, 0, g.words[0])
    ensures WarmedUp(m, g.At(0, 0, g.words[0]), WarmSteps(size), g.Ring(np, last))
  {
    var ring := g.Ring(np, last);
    g.RingFromLinks(m, np, last);
    g.RingLength(np, last);
    WarmUpIsLong(g, np, last, size);
    forall a | a in ring
      ensures exists t: nat :: t <= WarmSteps(size) && Walk(m, ring[0], t) == a
    {
      WalkCovers(m, ring, WarmSteps(size), a);
    }
  }

  // The warm-up walk, and what it visits.
  method Warm(g: Shape, m: Memory, np: nat, last: nat, size: nat) returns (p: int)
    requires g.Valid() && g.Fits(np, last) && g.Linked(m, np, last) && |g.words| * WORD == g.line
    requires Times(g.LapLen(np, last), g.line) <= size
    ensures IsRing(m, g.Ring(np, last)) && |g.Ring(np, last)| == Times(|g.words|, g.LapLen(np, last))
    ensures p == Walk(m, g.At(0, 0, g.words[0]), WarmSteps(size))
    ensures WarmedUp(m, g.At(0, 0, g.words[0]), WarmSteps(size), g.Ring(np, last))
  {
    WarmsUp(g, m, np, last, size);
    var first := g.base + g.pages[0] + g.lines[0] + g.words[0];
    assert first == g.At(0, 0, g.words[0]);
    p := Chase(m, first, WarmSteps(size), g.Ring(np, last), 0);
  }

  // Walking so many steps from p visits every slot.
  ghost predicate WarmedUp(m: Memory, p: int, steps: nat, slots: seq<int>) {
    forall a | a in slots :: exists t: nat :: t <= steps && Walk(m, p, t) == a
  }

  // The sizes measure can be called for: more than nothing, no more than there is, and not less
  // than a line of the last page (else the source reads lines[-1]).
  ghost predicate Measurable(g: Shape, size: nat) {
    && g.line > 0 && g.pagesize > 0 && Times(|g.lines|, g.line) == g.pagesize && |g.words| * WORD == g.line
    && 0 < size <= Times(|g.pages|, g.pagesize)
    && (Rem(size, g.pagesize) == 0 || Rem(size, g.pagesize) >= g.line)
  }

  // The ring measure walks for a size.
  ghost function MeasuredRing(g: Shape, size: nat): seq<int>
    requires Measurable(g, size)
  {
    g.Ring(PagesFor(size, g.pagesize), LinesFor(size, g.pagesize, g.line, |g.lines|))
  }

  // Line j of the i-th page lies within the first size bytes of the pages.
  predicate LineWithin(g: Shape, size: nat, i: nat, j: nat) {
    i < |g.pages| && j < |g.lines| && Times(i, g.pagesize) + Times(j + 1, g.line) <= size
  }

  /** What a ring for a size has to be: it visits every word of the whole lines within the size, counted in
      the order of the pages and of the lines in them, and no other. */
  ghost predicate HoldsSize(g: Shape, size: nat, ring: seq<int>)
    requires g.line > 0
  {
    && |ring| == Times(|g.words|, Quot(size, g.line))
    && forall a :: a in ring <==> exists i: nat, j: nat, b :: LineWithin(g, size, i, j) && b in g.words && a == g.At(i, j, b)
  }

  // As many lines as the size has, and the last one is within it.
  lemma SizingExact(size: nat, line: nat, ps: nat, nlines: nat)
    requires line > 0 && ps > 0 && Times(nlines, line) == ps && 0 < size
    requires Rem(size, ps) == 0 || Rem(size, ps) >= line
    ensures PagesFor(size, ps) > 0
    ensures Times(PagesFor(size, ps) - 1, nlines) + LinesFor(size, ps, line, nlines) == Quot(size, line)
  {
    var np, last, q, r := PagesFor(size, ps), LinesFor(size, ps, line, nlines), Quot(size, ps), Rem(size, ps);
    QuotIsDivision(size, ps);
    QuotIsDivision(r, line);
    TimesTimes(q, nlines, line);
    TimesAdd(Times(q, nlines), Quot(r, line), line);
    QuotIs(size, line, Times(q, nlines) + Quot(r, line), Rem(r, line));
    if r == 0 {
      TimesAdd(q - 1, 1, nlines);
    }
  }

  lemma QuotIs(a: nat, b: nat, q: nat, r: nat)
    requires b > 0 && a == Times(q, b) + r && r < b
    ensures Quot(a, b) == q
  {
    TimesIsProduct(q, b);
    QuotIsDivision(a, b);
    DivUnique(a, b, q, r);
  }

  // A line is among those on the ring if and only if it is within the size.
  lemma WithinIff(size: nat, line: nat, ps: nat, nlines: nat, i: nat, j: nat)
    requires line > 0 && ps > 0 && Times(nlines, line) == ps && 0 < size && j < nlines
    requires Rem(size, ps) == 0 || Rem(size, ps) >= line
    ensures Times(i, ps) + Times(j + 1, line) <= size <==>
      i < PagesFor(size, ps) && j < if i == PagesFor(size, ps) - 1 then LinesFor(size, ps, line, nlines) else nlines
  {
    var np, q, r := PagesFor(size, ps), Quot(size, ps), Rem(size, ps);
    QuotIsDivision(size, ps);
    QuotIsDivision(r, line);
    TimesMonotone(j + 1, nlines, line);
    if i < q {
      TimesMonotone(i + 1, q, ps);
    } else if i > q {
      TimesMonotone(q + 1, i, ps);
    } else if j < Quot(r, line) {
      TimesMonotone(j + 1, Quot(r, line), line);
    } else {
      TimesMonotone(Quot(r, line) + 1, j + 1, line);
    }
  }

  lemma MeasuredHoldsSize(g: Shape, size: nat)
    requires g.Valid() && Measurable(g, size)
    ensures HoldsSize(g, size, MeasuredRing(g, size))
  {
    var np, last := PagesFor(size, g.pagesize), LinesFor(size, g.pagesize, g.line, |g.lines|);
    SizingFits(size, g.line, g.pagesize, |g.lines|, |g.pages|);
    SizingExact(size, g.line, g.pagesize, |g.lines|);
    g.RingLength(np, last);
    forall a
      ensures a in g.Ring(np, last) <==>
        exists i: nat, j: nat, b :: LineWithin(g, size, i, j) && b in g.words && a == g.At(i, j, b)
    {
      MeasuredSlot(g, size, np, last, a);
    }
  }

  lemma MeasuredSlot(g: Shape, size: nat, np: nat, last: nat, a: int)
    requires g.Fits(np, last) && Measurable(g, size)
    requires np == PagesFor(size, g.pagesize) && last == LinesFor(size, g.pagesize, g.line, |g.lines|)
    ensures a in g.Ring(np, last) <==>
      exists i: nat, j: nat, b :: LineWithin(g, size, i, j) && b in g.words && a == g.At(i, j, b)
  {
    g.RingMember(np, last, a);
    if a in g.Ring(np, last) {
      var i: nat, j: nat, b :| i < np && j < g.LinesOn(i, np, last) && b in g.words && a == g.At(i, j, b);
      WithinIff(size, g.line, g.pagesize, |g.lines|, i, j);
      assert LineWithin(g, size, i, j);
    }
    if i: nat, j: nat, b :| LineWithin(g, size, i, j) && b in g.words && a == g.At(i, j, b) {
      WithinIff(size, g.line, g.pagesize, |g.lines|, i, j);
      assert i < np && j < g.LinesOn(i, np, last);
    }
  }

  /** measure, up to the statistics over the timed walks: rewires, walks from the first slot, and
      puts the last line it cut short back.  Whatever the order of the pages, the walk is on one
      single cycle with the promised number of words and the warm-up visits all of them; on return
      every link inside a page is as before.  warm is where the warm-up ends. */
  method Measure(g: Shape, blk: Block, m0: Memory, size: nat) returns (m: Memory, warm: int, ghost wired: Memory)
    requires g.Usable(blk) && WithinPages(g, m0) && Measurable(g, size)
    ensures IsRing(wired, MeasuredRing(g, size)) && HoldsSize(g, size, MeasuredRing(g, size))
    ensures warm == Walk(wired, g.At(0, 0, g.words[0]), WarmSteps(size))
    ensures WarmedUp(wired, g.At(0, 0, g.words[0]), WarmSteps(size), MeasuredRing(g, size))
    ensures WithinPages(g, m) && PagesFor(size, g.pagesize) <= |g.pages|
      && OnlyLastLines(g, m0, m, PagesFor(size, g.pagesize))
  {
    var npages, nlines := Sizing(size, g.line, g.pagesize, |g.lines|);
    MeasuredHoldsSize(g, size);
    SizingFits(size, g.line, g.pagesize, |g.lines|, |g.pages|);
    m, warm, wired := MeasurePages(g, blk, m0, size, npages, nlines);
  }

  // Lines 405-453, once it is known how many pages and lines there are.
  method MeasurePages(g: Shape, blk: Block, m0: Memory, size: nat, np: nat, last: nat)
    returns (m: Memory, warm: int, ghost wired: Memory)
    requires g.Usable(blk) && WithinPages(g, m0) && g.Fits(np, last)
    requires |g.words| * WORD == g.line && Times(g.LapLen(np, last), g.line) <= size
    ensures IsRing(wired, g.Ring(np, last))
    ensures warm == Walk(wired, g.At(0, 0, g.words[0]), WarmSteps(size))
    ensures WarmedUp(wired, g.At(0, 0, g.words[0]), WarmSteps(size), g.Ring(np, last))
    ensures WithinPages(g, m) && OnlyLastLines(g, m0, m, np)
  {
    ghost var chained;
    m, chained := Rewire(g, blk, m0, np, last);
    wired := m;
    warm := Warm(g, m, np, last, size);
    m := Unwire(g, blk, m0, m, np, last, chained);
  }

  /** Lines 448-453. */
  method Unwire(g: Shape, blk: Block, ghost m0: Memory, m1: Memory, np: nat, last: nat, ghost chained: Memory)
    returns (m: Memory)
    requires g.Usable(blk) && g.Fits(np, last) && WithinPages(g, chained)
    requires OnlyLastLines(g, m0, chained, np - 1) && g.OnlyLine(chained, m1, np - 1, last - 1)
    ensures WithinPages(g, m) && OnlyLastLines(g, m0, m, np)
  {
    if last < |g.lines| {
      m := Restore(g, blk, m1, np - 1, last - 1, chained);
    } else {
      m := m1;
      KeepsWithin(g, chained, m, np - 1);
    }
    forall a: int | !InLines(g, a, np, |g.lines| - 1)
      ensures (a in m0 <==> a in m) && (a in m0 ==> m0[a] == m[a])
    {
      assert !InLines(g, a, np - 1, |g.lines| - 1);
      assert !g.InLine(a, np - 1, |g.lines| - 1);
    }
  }

  // ---- remove_chunk ---------------------------------------------------------------

  // Position x is in exactly one of the chunk at i and the chunk at the end of the first n.
  predicate Moved(x: int, i: nat, chunk: nat, n: nat) {
    (i <= x < i + chunk) != (n - chunk <= x < n)
  }

  // The chunk at i swapped, back to front, with the last entries of the first n.  Where the two
  // ranges overlap, pairs are swapped twice and stay.
  function Swapped(s: seq<int>, i: nat, chunk: nat, n: nat): (t: seq<int>)
    requires i + chunk <= n <= |s|
    ensures |t| == |s|
  {
    seq(|s|, x requires 0 <= x < |s| => if Moved(x, i, chunk, n) then s[i + n - 1 - x] else s[x])
  }

  // One more pair swapped.
  lemma SwapNext(s: seq<int>, i: nat, j: nat, n: nat)
    requires i + j + 1 < n <= |s|
    ensures var t := Swapped(s, i, j, n);
            t[i + j := t[n - 1 - j]][n - 1 - j := t[i + j]] == Swapped(s, i, j + 1, n)
  {
  }

  /** Lines 470-474 and 478-482. */
  method SwapChunk(pages: array<int>, i: nat, chunk: nat, npages: nat)
    requires i + chunk < npages <= pages.Length
    modifies pages
    ensures pages[..] == Swapped(old(pages[..]), i, chunk, npages)
  {
    ghost var s := pages[..];
    assert Swapped(s, i, 0, npages) == s;
    for j := 0 to chunk
      invariant pages[..] == Swapped(s, i, j, npages)
    {
      SwapNext(s, i, j, npages);
      ghost var t := pages[..];
      var n := pages[i + j];
      pages[i + j] := pages[npages - 1 - j];
      pages[npages - 1 - j] := n;
      assert pages[..] == t[i + j := t[npages - 1 - j]][npages - 1 - j := t[i + j]];
    }
  }

  /** Swapping twice restores the list, even when the ranges overlap. */
  lemma SwapTwice(s: seq<int>, i: nat, chunk: nat, n: nat)
    requires i + chunk <= n <= |s|
    ensures Swapped(Swapped(s, i, chunk, n), i, chunk, n) == s
  {
  }

  /** After the swap the first n - chunk pages are exactly the first n pages without the chunk,
      and the order of the pages is all that changed. */
  lemma ChunkIsLast(s: seq<int>, i: nat, chunk: nat, n: nat, x: int)
    requires i + chunk <= n <= |s|
    ensures x in Swapped(s, i, chunk, n)[..n - chunk] <==> x in s[..i] + s[i + chunk..n]
    ensures x in Swapped(s, i, chunk, n) <==> x in s
  {
    var t := Swapped(s, i, chunk, n);
    if k :| 0 <= k < n - chunk && t[k] == x {
      var k' := if Moved(k, i, chunk, n) then i + n - 1 - k else k;
      assert s[k'] == x && (k' < i || i + chunk <= k' < n);
      assert k' >= i + chunk ==> (s[..i] + s[i + chunk..n])[k' - chunk] == x;
    }
    var kept := s[..i] + s[i + chunk..n];
    if k :| 0 <= k < n - chunk && kept[k] == x {
      var k' := if k < i then k else k + chunk;
      var k'' := if Moved(k', i, chunk, n) then i + n - 1 - k' else k';
      assert t[k''] == x && k'' < n - chunk;
    }
    if k :| 0 <= k < |t| && t[k] == x {
      var k' := if Moved(k, i, chunk, n) then i + n - 1 - k else k;
      assert s[k'] == x;
    }
    if k :| 0 <= k < |s| && s[k] == x {
      var k' := if Moved(k, i, chunk, n) then i + n - 1 - k else k;
      assert t[k'] == x;
    }
  }

  lemma SwappedUsable(g: Shape, blk: Block, m: Memory, i: nat, chunk: nat, n: nat)
    requires i + chunk <= n <= |g.pages| && g.Usable(blk) && WithinPages(g, m)
    ensures var h := g.(pages := Swapped(g.pages, i, chunk, n)); h.Usable(blk) && WithinPages(h, m)
  {
    var s, t := g.pages, Swapped(g.pages, i, chunk, n);
    var h := g.(pages := t);
    forall x | x in t
      ensures x in s
    {
      ChunkIsLast(s, i, chunk, n, x);
    }
    WithinPagesReordered(g, t, m);
    forall x, y | 0 <= x < |t| && 0 <= y < |t| && x != y
      ensures t[x] + g.pagesize <= t[y] || t[y] + g.pagesize <= t[x]
    {
      var x' := if Moved(x, i, chunk, n) then i + n - 1 - x else x;
      var y' := if Moved(y, i, chunk, n) then i + n - 1 - y else y;
      assert x' != y' && t[x] == s[x'] && t[y] == s[y'];
    }
    forall x | 0 <= x < |t|
      ensures t[x] % WORD == 0 && blk.lo <= g.base + t[x] <= blk.hi - g.pagesize
    {
      var x' := if Moved(x, i, chunk, n) then i + n - 1 - x else x;
      assert t[x] == s[x'];
    }
    h.CoverIsUsable(blk);
  }

  // The pages of the first n that are not in the chunk.
  function Kept(s: seq<int>, i: nat, chunk: nat, n: nat): seq<int>
    requires i + chunk <= n <= |s|
  {
    s[..i] + s[i + chunk..n]
  }

  // The order of the pages while the chunk is removed.
  function Removed(s: seq<int>, i: nat, chunk: nat, n: nat): seq<int>
    requires i + chunk <= n <= |s|
  {
    if i + chunk < n then Swapped(s, i, chunk, n) else s
  }

  lemma RemovedFacts(g: Shape, blk: Block, m: Memory, i: nat, chunk: nat, n: nat)
    requires i + chunk <= n <= |g.pages| && g.Usable(blk) && WithinPages(g, m)
    ensures var h := g.(pages := Removed(g.pages, i, chunk, n)); h.Usable(blk) && WithinPages(h, m)
    ensures |Removed(g.pages, i, chunk, n)| == |g.pages|
    ensures forall x :: x in Removed(g.pages, i, chunk, n)[..n - chunk] <==> x in Kept(g.pages, i, chunk, n)
    ensures forall x :: x in Removed(g.pages, i, chunk, n) <==> x in g.pages
  {
    if i + chunk < n {
      SwappedUsable(g, blk, m, i, chunk, n);
      forall x
        ensures x in Removed(g.pages, i, chunk, n)[..n - chunk] <==> x in Kept(g.pages, i, chunk, n)
        ensures x in Removed(g.pages, i, chunk, n) <==> x in g.pages
      {
        ChunkIsLast(g.pages, i, chunk, n, x);
      }
    }
  }

  // Taking chunk whole pages off a size takes chunk pages off the ring.
  lemma FewerPages(len: nat, chunk: nat, ps: nat)
    requires ps > 0 && Times(chunk, ps) <= len
    ensures PagesFor(len - Times(chunk, ps), ps) == PagesFor(len, ps) - chunk
    ensures Rem(len - Times(chunk, ps), ps) == Rem(len, ps)
  {
    if chunk > 0 {
      FewerPages(len - ps, chunk - 1, ps);
    }
  }

  // a lies on the page at offset x.
  predicate OnPage(a: int, base: int, x: int, pagesize: int) {
    base + x <= a < base + x + pagesize
  }

  // The ring stays on these pages ...
  ghost predicate StaysOn(ring: seq<int>, base: int, pagesize: int, pages: seq<int>) {
    forall a | a in ring :: exists x | x in pages :: OnPage(a, base, x, pagesize)
  }

  // ... and visits each of them.
  ghost predicate Visits(ring: seq<int>, base: int, pagesize: int, pages: seq<int>) {
    forall x | x in pages :: exists a | a in ring :: OnPage(a, base, x, pagesize)
  }

  lemma RingOnPages(g: Shape, np: nat, last: nat, pages: seq<int>)
    requires g.Valid() && g.Fits(np, last) && forall x :: x in g.pages[..np] <==> x in pages
    ensures StaysOn(g.Ring(np, last), g.base, g.pagesize, pages)
    ensures Visits(g.Ring(np, last), g.base, g.pagesize, pages)
  {
    var ring := g.Ring(np, last);
    forall a | a in ring
      ensures exists x | x in pages :: OnPage(a, g.base, x, g.pagesize)
    {
      g.RingMember(np, last, a);
      var i: nat, j: nat, b :| i < np && j < g.LinesOn(i, np, last) && b in g.words && a == g.At(i, j, b);
      assert g.pages[i] in g.pages[..np];
      assert OnPage(a, g.base, g.pages[i], g.pagesize);
    }
    forall x | x in pages
      ensures exists a | a in ring :: OnPage(a, g.base, x, g.pagesize)
    {
      var i: nat :| i < np && g.pages[i] == x;
      var a := g.At(i, 0, g.words[0]);
      g.RingMember(np, last, a);
      assert OnPage(a, g.base, x, g.pagesize);
    }
  }

  // What is measured while the chunk is away.
  ghost predicate MeasuredWithout(g: Shape, wired: Memory, i: nat, chunk: nat, npages: nat, size: nat)
    requires i + chunk <= npages <= |g.pages|
  {
    var h := g.(pages := Removed(g.pages, i, chunk, npages));
    && Measurable(h, size) && IsRing(wired, MeasuredRing(h, size)) && HoldsSize(h, size, MeasuredRing(h, size))
    && StaysOn(MeasuredRing(h, size), g.base, g.pagesize, Kept(g.pages, i, chunk, npages))
    && Visits(MeasuredRing(h, size), g.base, g.pagesize, Kept(g.pages, i, chunk, npages))
  }

  // The call of measure in between the two swaps.
  method MeasureKept(g: Shape, blk: Block, m0: Memory, h: Shape, size: nat,
      ghost i: nat, ghost chunk: nat, ghost npages: nat)
    returns (m: Memory, warm: int, ghost wired: Memory)
    requires g.Usable(blk) && WithinPages(g, m0) && i + chunk <= npages <= |g.pages|
    requires h == g.(pages := Removed(g.pages, i, chunk, npages))
    requires Measurable(g, size) && PagesFor(size, g.pagesize) == npages - chunk
    ensures WithinPages(g, m) && MeasuredWithout(g, wired, i, chunk, npages, size)
  {
    RemovedFacts(g, blk, m0, i, chunk, npages);
    m, warm, wired := Measure(h, blk, m0, size);
    WithinPagesReordered(h, g.pages, m);
    KeptRing(g, blk, m0, h, wired, size, i, chunk, npages);
  }

  lemma KeptRing(g: Shape, blk: Block, m0: Memory, h: Shape, wired: Memory, size: nat, i: nat, chunk: nat, npages: nat)
    requires g.Usable(blk) && WithinPages(g, m0) && i + chunk <= npages <= |g.pages|
    requires h == g.(pages := Removed(g.pages, i, chunk, npages))
    requires Measurable(g, size) && PagesFor(size, g.pagesize) == npages - chunk
    requires Measurable(h, size) && IsRing(wired, MeasuredRing(h, size)) && HoldsSize(h, size, MeasuredRing(h, size))
    ensures MeasuredWithout(g, wired, i, chunk, npages, size)
  {
    RemovedFacts(g, blk, m0, i, chunk, npages);
    SizingFits(size, g.line, g.pagesize, |g.lines|, |g.pages|);
    RingOnPages(h, npages - chunk, LinesFor(size, g.pagesize, g.line, |g.lines|), Kept(g.pages, i, chunk, npages));
  }

  /** remove_chunk: measures without the chunk of pages at i.  The page list is left exactly as it
      was found, and what was measured is one ring over the other pages. */
  method RemoveChunk(pages: array<int>, g: Shape, blk: Block, m0: Memory, i: nat, chunk: nat, npages: nat, len: nat)
    returns (m: Memory, warm: int, ghost wired: Memory)
    requires g.pages == pages[..] && g.Usable(blk) && WithinPages(g, m0) && g.pagesize > 0
    requires i + chunk <= npages == PagesFor(len, g.pagesize) && npages <= pages.Length
    requires Times(chunk, g.pagesize) <= len && Measurable(g, len - Times(chunk, g.pagesize))
    modifies pages
    ensures pages[..] == old(pages[..])
    ensures WithinPages(g, m) && MeasuredWithout(g, wired, i, chunk, npages, len - Times(chunk, g.pagesize))
  {
    if i + chunk < npages {
      SwapChunk(pages, i, chunk, npages);
    }
    FewerPages(len, chunk, g.pagesize);
    TimesIsProduct(chunk, g.pagesize);
    m, warm, wired := MeasureKept(g, blk, m0, g.(pages := pages[..]), len - chunk * g.pagesize, i, chunk, npages);
    if i + chunk < npages {
      SwapTwice(g.pages, i, chunk, npages);
      SwapChunk(pages, i, chunk, npages);
    }
  }
}
