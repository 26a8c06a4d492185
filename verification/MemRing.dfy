/** The loops of mem_initialize (lib_mem.c) that thread the ring through memory. */
module MemRing {
  import opened Arith
  import opened Rings
  import opened Layout

  const MAX_MEM_PARALLELISM: nat := 16

  // The only multiple of step that is l is reached when step divides l.
  lemma StartAt(l: nat, step: nat)
    requires step > 0
    ensures l / step >= 0 && (l % step == 0 ==> Times(l / step, step) == l)
    ensures forall k: nat :: Reached(k, step, l + 1) <==> Reached(k, step, l) || (l % step == 0 && k == l / step)
  {
    DivNonneg(l, step);
    TimesIsProduct(l / step, step);
    forall k: nat
      ensures Reached(k, step, l + 1) <==> Reached(k, step, l) || (l % step == 0 && k == l / step)
    {
      TimesIsProduct(k, step);
      if k * step == l {
        DivUnique(l, step, k, 0);
      } else if l % step == 0 {
        assert l == step * (l / step);
      }
    }
  }

  // How many links the inner loop places in a page when l0 are placed already.
  function LinksPlaced(nlines: nat, npointers: nat, l0: nat): nat
    requires nlines > 0
  {
    if npointers <= l0 then 0 else if npointers - 1 - l0 < nlines - 1 then npointers - 1 - l0 else nlines - 1
  }

  // Every page but the last gets all its links.
  lemma LinksPerPage(i: nat, npages: nat, nlines: nat, npointers: nat)
    requires i < npages && nlines > 0
    requires npages >= 2 ==> Times(npages - 1, nlines - 1) < npointers
    ensures var l0 := Times(i, nlines - 1); var j := LinksPlaced(nlines, npointers, l0);
      if i == npages - 1 then j == LastLines(nlines, npages, npointers) - 1
      else j == nlines - 1 && l0 + j == Times(i + 1, nlines - 1)
  {
    if i < npages - 1 {
      TimesMonotone(i + 1, npages - 1, nlines - 1);
    }
  }

  // How many lines of the last page the loops put on the ring.
  function LastLines(nlines: nat, npages: nat, npointers: nat): nat
    requires npages > 0 && nlines > 0
  {
    var room := npointers - 1 - Times(npages - 1, nlines - 1);
    1 + if room <= 0 then 0 else if room < nlines - 1 then room else nlines - 1
  }

  // Start pointer k falls on one of the first l links.
  predicate Reached(k: nat, step: nat, l: nat) {
    Times(k, step) < l
  }

  // Link number k * step starts at line j of page i, and a is the word of that line start
  // pointer k has to point at.
  ghost predicate StartsAt(g: Shape, k: nat, a: int, step: nat, i: nat, j: nat) {
    && i < |g.pages| && j < |g.lines| - 1 && g.words != []
    && Times(k, step) == Times(i, |g.lines| - 1) + j
    && a == g.At(i, j, g.words[k % |g.words|])
  }

  // ... for some link that starts before line j of page i.
  ghost predicate IsStart(g: Shape, k: nat, a: int, step: nat, i: nat, j: nat) {
    exists i': nat, j': nat :: StartsAt(g, k, a, step, i', j') && (i' < i || (i' == i && j' < j))
  }

  // The start pointers set after l links, the last of them before line j of page i.
  ghost predicate Starts(p: map<nat, int>, g: Shape, l: nat, step: nat, i: nat, j: nat) {
    && (forall k: nat :: k in p <==> k < MAX_MEM_PARALLELISM && Reached(k, step, l))
    && (forall k: nat :: k in p ==> IsStart(g, k, p[k], step, i, j))
  }

  lemma LaterStarts(p: map<nat, int>, g: Shape, l: nat, step: nat, i: nat, j: nat, i': nat, j': nat)
    requires Starts(p, g, l, step, i, j) && (i < i' || (i == i' && j <= j'))
    ensures Starts(p, g, l, step, i', j')
  {
    forall k: nat | k in p
      ensures IsStart(g, k, p[k], step, i', j')
    {
      assert IsStart(g, k, p[k], step, i, j);
    }
  }

  // The words of line j of page i before offset e point to the next line.
  ghost predicate LineTo(g: Shape, m: Memory, i: nat, j: nat, e: int)
    requires i < |g.pages| && j + 1 < |g.lines|
  {
    forall b | b in g.words && b < e :: Points(m, g.At(i, j, b), g.At(i, j + 1, b))
  }

  lemma LineOne(g: Shape, m0: Memory, m: Memory, i: nat, j: nat, e: int)
    requires g.LinesCover() && i < |g.pages| && j + 1 < |g.lines| && 0 <= e < g.line && e % WORD == 0
    requires LineTo(g, m, i, j, e) && SameOutside(m0, m, g.At(i, j, 0), g.At(i, j, 0) + g.line)
    ensures var m' := m[g.At(i, j, e) := g.At(i, j + 1, e)];
            LineTo(g, m', i, j, e + WORD) && SameOutside(m0, m', g.At(i, j, 0), g.At(i, j, 0) + g.line)
  {
    var m' := m[g.At(i, j, e) := g.At(i, j + 1, e)];
    forall b | b in g.words && b < e + WORD
      ensures Points(m', g.At(i, j, b), g.At(i, j + 1, b))
    {
      assert g.IsWord(b);
      NextAligned(b, e);
      if b < e {
        assert Points(m, g.At(i, j, b), g.At(i, j + 1, b));
      }
    }
  }

  // An aligned offset in a line is in the block.
  lemma OffsetHolds(g: Shape, blk: Block, i: nat, j: nat, e: int)
    requires g.LinesCover() && g.PagesIn(blk) && i < |g.pages| && j < |g.lines| && 0 <= e < g.line && e % WORD == 0
    ensures blk.Holds(g.At(i, j, e))
  {
    AlignedSum(g.base, g.pages[i], g.lines[j]);
    AlignedSum(g.base + g.pages[i] + g.lines[j], e, 0);
    if e > g.line - WORD {
      NextAligned(g.line, e);
    }
  }

  /** Lines 315-318: every word of line j of page i points at the same word of line j + 1. */
  method LinkLine(g: Shape, blk: Block, m0: Memory, i: nat, j: nat) returns (m: Memory)
    requires g.Usable(blk) && i < |g.pages| && j + 1 < |g.lines|
    ensures SameOutside(m0, m, g.At(i, j, 0), g.At(i, j, 0) + g.line)
    ensures forall b | b in g.words :: Points(m, g.At(i, j, b), g.At(i, j + 1, b))
  {
    m := m0;
    var k := 0;
    while k < g.line
      invariant 0 <= k && k % WORD == 0
      invariant LineTo(g, m, i, j, k) && SameOutside(m0, m, g.At(i, j, 0), g.At(i, j, 0) + g.line)
    {
      OffsetHolds(g, blk, i, j, k);
      LineOne(g, m0, m, i, j, k);
      m := blk.Store(m, g.base + g.pages[i] + g.lines[j] + k, g.base + g.pages[i] + g.lines[j + 1] + k);
      k := k + WORD;
    }
    assert forall b | b in g.words :: g.IsWord(b);
  }

  /** Lines 319-323: every (npointers / width)-th link also becomes a start pointer. */
  method NoteStart(g: Shape, p0: map<nat, int>, i: nat, j: nat, l: nat, npointers: nat, width: nat)
    returns (p: map<nat, int>)
    requires i < |g.pages| && j < |g.lines| - 1 && g.words != []
    requires 0 < width && 0 < Quot(npointers, width) && l == Times(i, |g.lines| - 1) + j
    requires Starts(p0, g, l, Quot(npointers, width), i, j)
    ensures Starts(p, g, l + 1, Quot(npointers, width), i, j + 1)
  {
    QuotIsDivision(npointers, width);
    var step: nat := npointers / width;
    StartAt(l, step);
    LaterStarts(p0, g, l, step, i, j, i, j + 1);
    p := p0;
    var k: nat := l / step;
    if l % step == 0 && k < MAX_MEM_PARALLELISM {
      var start := g.base + g.pages[i] + g.lines[j] + g.words[k % |g.words|];
      assert start == g.At(i, j, g.words[k % |g.words|]);
      assert StartsAt(g, k, start, step, i, j);
      p := p[k := start];
    }
    forall k': nat
      ensures k' in p <==> k' < MAX_MEM_PARALLELISM && Reached(k', step, l + 1)
    {
      assert k' in p0 <==> k' < MAX_MEM_PARALLELISM && Reached(k', step, l);
    }
    assert forall k': nat :: k' in p ==> IsStart(g, k', p[k'], step, i, j + 1);
  }

  /** Lines 314-324: links the lines of page i, while there are pointers left to place. */
  method LinkPage(g: Shape, blk: Block, m0: Memory, p0: map<nat, int>, i: nat, l0: nat, npointers: nat, width: nat)
    returns (m: Memory, p: map<nat, int>, j: nat, l: nat)
    requires g.Usable(blk) && i < |g.pages| && l0 == Times(i, |g.lines| - 1)
    requires 0 < width && (l0 < npointers - 1 ==> 0 < Quot(npointers, width))
    requires Starts(p0, g, l0, Quot(npointers, width), i, 0)
    ensures l == l0 + j
    ensures j == LinksPlaced(|g.lines|, npointers, l0)
    ensures SameOutside(m0, m, g.base + g.pages[i], g.base + g.pages[i] + g.pagesize)
    ensures g.LinkedInPage(m, i, j + 1)
    ensures Starts(p, g, l, Quot(npointers, width), i, j)
  {
    m, p, j, l := m0, p0, 0, l0;
    while j < |g.lines| - 1 && l < npointers - 1
      invariant j <= |g.lines| - 1 && l == l0 + j && (j > 0 ==> l <= npointers - 1)
      invariant SameOutside(m0, m, g.base + g.pages[i], g.base + g.pages[i] + g.pagesize)
      invariant g.LinkedInPage(m, i, j + 1)
      invariant Starts(p, g, l, Quot(npointers, width), i, j)
    {
      var m1 := LinkLine(g, blk, m, i, j);
      g.KeepsLines(m, m1, i, j, i, j + 1);
      m := m1;
      p := NoteStart(g, p, i, j, l, npointers, width);
      j, l := j + 1, l + 1;
    }
  }

  // Word k of line j of page i: its address, apart from those of the words before it.
  lemma WordStore(g: Shape, blk: Block, m0: Memory, m: Memory, i: nat, j: nat, k: nat, v: int)
    requires g.Usable(blk) && i < |g.pages| && j < |g.lines| && k < |g.words| && g.OnlyLine(m0, m, i, j)
    ensures blk.Holds(g.At(i, j, g.words[k])) && g.OnlyLine(m0, m[g.At(i, j, g.words[k]) := v], i, j)
    ensures forall k': nat | k' < k :: g.At(i, j, g.words[k']) != g.At(i, j, g.words[k])
  {
    var a := g.At(i, j, g.words[k]);
    assert g.words[k] in g.words;
    assert g.IsWord(g.words[k]) && g.InLine(a, i, j);
  }

  // The first k words of line j of page i point to the first line of page i', word for word.
  ghost predicate ToPage(g: Shape, m: Memory, i: nat, i': nat, k: nat)
    requires g.lines != [] && i < |g.pages| && i' < |g.pages| && k <= |g.words|
  {
    forall k': nat | k' < k :: Points(m, g.At(i, |g.lines| - 1, g.words[k']), g.At(i', 0, g.words[k']))
  }

  lemma ToWholePage(g: Shape, m: Memory, i: nat, i': nat)
    requires g.lines != [] && i < |g.pages| && i' < |g.pages| && ToPage(g, m, i, i', |g.words|)
    ensures g.LinkedTo(m, i, i')
  {
    forall b | b in g.words
      ensures Points(m, g.At(i, |g.lines| - 1, b), g.At(i', 0, b))
    {
      var k: nat :| k < |g.words| && g.words[k] == b;
    }
  }

  /** Lines 327-329: the last line of page i points at the first line of page i', word for word. */
  method LinkToPage(g: Shape, blk: Block, m0: Memory, i: nat, i': nat) returns (m: Memory)
    requires g.Usable(blk) && i < |g.pages| && i' < |g.pages|
    ensures g.OnlyLine(m0, m, i, |g.lines| - 1)
    ensures g.LinkedTo(m, i, i')
  {
    m := m0;
    var j := |g.lines| - 1;
    for k := 0 to |g.words|
      invariant g.OnlyLine(m0, m, i, j) && ToPage(g, m, i, i', k)
    {
      var v := g.base + g.pages[i'] + g.lines[0] + g.words[k];
      WordStore(g, blk, m0, m, i, j, k, v);
      m := blk.Store(m, g.base + g.pages[i] + g.lines[j] + g.words[k], v);
    }
    ToWholePage(g, m, i, i');
  }

  // The first k words of line j of the last page point to the beginning, one word on.
  ghost predicate ToFirst(g: Shape, m: Memory, i: nat, j: nat, k: nat)
    requires g.lines != [] && i < |g.pages| && j < |g.lines| && k <= |g.words|
  {
    forall k': nat | k' < k :: Points(m, g.At(i, j, g.words[k']), g.At(0, 0, g.NextWord(k')))
  }

  lemma ToFirstNext(g: Shape, m: Memory, m': Memory, i: nat, j: nat, k: nat)
    requires g.lines != [] && i < |g.pages| && j < |g.lines| && k < |g.words| && ToFirst(g, m, i, j, k)
    requires m' == m[g.At(i, j, g.words[k]) := g.At(0, 0, g.NextWord(k))]
    requires forall k': nat | k' < k :: g.At(i, j, g.words[k']) != g.At(i, j, g.words[k])
    ensures ToFirst(g, m', i, j, k + 1)
  {
    forall k': nat | k' < k + 1
      ensures Points(m', g.At(i, j, g.words[k']), g.At(0, 0, g.NextWord(k')))
    {
      if k' < k {
        assert Points(m, g.At(i, j, g.words[k']), g.At(0, 0, g.NextWord(k')));
      }
    }
  }

  lemma AllToFirst(g: Shape, m: Memory, np: nat, j: nat)
    requires g.Fits(np, j + 1) && ToFirst(g, m, np - 1, j, |g.words|)
    ensures g.Wrapped(m, np, j + 1)
  {
  }

  // Lines 333-335.
  method StoreBack(g: Shape, blk: Block, ghost m0: Memory, m: Memory, i: nat, j: nat, k: nat) returns (m': Memory)
    requires g.Usable(blk) && i < |g.pages| && j < |g.lines| && k < |g.words|
    requires g.OnlyLine(m0, m, i, j) && ToFirst(g, m, i, j, k)
    ensures g.OnlyLine(m0, m', i, j) && ToFirst(g, m', i, j, k + 1)
  {
    var nw := if k == |g.words| - 1 then 0 else k + 1;
    var v := g.base + g.pages[0] + g.lines[0] + g.words[nw];
    WordStore(g, blk, m0, m, i, j, k, v);
    m' := blk.Store(m, g.base + g.pages[i] + g.lines[j] + g.words[k], v);
    ToFirstNext(g, m, m', i, j, k);
  }

  /** Lines 332-336: the last line used points back to the first one, at the next word. */
  method CloseRing(g: Shape, blk: Block, m0: Memory, npages: nat, j: nat) returns (m: Memory)
    requires g.Usable(blk) && 0 < npages <= |g.pages| && j < |g.lines|
    ensures g.OnlyLine(m0, m, npages - 1, j)
    ensures g.Wrapped(m, npages, j + 1)
  {
    m := m0;
    for k := 0 to |g.words|
      invariant g.OnlyLine(m0, m, npages - 1, j) && ToFirst(g, m, npages - 1, j, k)
    {
      m := StoreBack(g, blk, m0, m, npages - 1, j, k);
    }
    AllToFirst(g, m, npages, j);
  }

  // What holds after i pages: the links made, the start pointers set, and the counters.
  ghost predicate Progress(g: Shape, m: Memory, p: map<nat, int>, i: nat, j: nat, l: nat,
      npages: nat, npointers: nat, width: nat)
    requires 0 < npages <= |g.pages| && 0 < |g.lines| && i <= npages && 0 < width
  {
    var nlines, last := |g.lines|, LastLines(|g.lines|, npages, npointers);
    && g.PagesDone(m, i, npages, last)
    && (if i < npages then Starts(p, g, l, Quot(npointers, width), i, 0)
        else Starts(p, g, l, Quot(npointers, width), npages - 1, j))
    && l == (if i < npages then Times(i, nlines - 1) else Times(npages - 1, nlines - 1) + j)
    && (i == npages ==> j == last - 1)
  }

  /** Lines 314-330: the whole of page i. */
  method LinkOnePage(g: Shape, blk: Block, m0: Memory, p0: map<nat, int>, i: nat, ghost j0: nat, l0: nat,
      npages: nat, npointers: nat, width: nat)
    returns (m: Memory, p: map<nat, int>, j: nat, l: nat)
    requires g.Usable(blk) && i < npages <= |g.pages| && 0 < width
    requires npointers >= 2 ==> 0 < Quot(npointers, width)
    requires npages >= 2 ==> Times(npages - 1, |g.lines| - 1) < npointers
    requires Progress(g, m0, p0, i, j0, l0, npages, npointers, width)
    ensures Progress(g, m, p, i + 1, j, l, npages, npointers, width) && j < |g.lines|
  {
    ghost var last := LastLines(|g.lines|, npages, npointers);
    LinksPerPage(i, npages, |g.lines|, npointers);
    m, p, j, l := LinkPage(g, blk, m0, p0, i, l0, npointers, width);
    assert j + 1 == g.LinesOn(i, npages, last);
    if i < npages - 1 {
      m := LinkNextPage(g, blk, m0, m, i);
      LaterStarts(p, g, l, Quot(npointers, width), i, j, i + 1, 0);
    }
    g.PageJoins(m0, m, i, npages, last);
  }

  // Lines 327-329 again, with what they leave alone.
  method LinkNextPage(g: Shape, blk: Block, ghost m0: Memory, m1: Memory, i: nat) returns (m: Memory)
    requires g.Usable(blk) && i + 1 < |g.pages|
    requires SameOutside(m0, m1, g.base + g.pages[i], g.base + g.pages[i] + g.pagesize)
    requires g.LinkedInPage(m1, i, |g.lines|)
    ensures SameOutside(m0, m, g.base + g.pages[i], g.base + g.pages[i] + g.pagesize)
    ensures g.LinkedInPage(m, i, |g.lines|) && g.LinkedTo(m, i, i + 1)
  {
    m := LinkToPage(g, blk, m1, i, i + 1);
    g.OnlyLineOutside(m1, m, i, |g.lines| - 1);
    g.KeepsLines(m1, m, i, |g.lines| - 1, i, |g.lines|);
  }

  // What mem_initialize builds: the links of the ring, and start pointers to some of its slots.
  ghost predicate Threaded(g: Shape, m: Memory, p: map<nat, int>, npages: nat, npointers: nat, width: nat) {
    && 0 < npages <= |g.pages| && g.lines != [] && width > 0
    && var last := LastLines(|g.lines|, npages, npointers);
      && g.Linked(m, npages, last)
      && Starts(p, g, Times(npages - 1, |g.lines| - 1) + last - 1, Quot(npointers, width), npages - 1, last - 1)
  }

  // Lines 311-330.
  method LinkPages(g: Shape, blk: Block, m0: Memory, npages: nat, npointers: nat, width: nat)
    returns (m: Memory, p: map<nat, int>, j: nat, ghost l: nat)
    requires g.Usable(blk) && 0 < npages <= |g.pages| && 0 < width
    requires npointers >= 2 ==> 0 < Quot(npointers, width)
    requires npages >= 2 ==> Times(npages - 1, |g.lines| - 1) < npointers
    ensures j < |g.lines| && Progress(g, m, p, npages, j, l, npages, npointers, width)
  {
    var count: nat := 0;
    m, p, j := m0, map[], 0;
    for i := 0 to npages
      invariant Progress(g, m, p, i, j, count, npages, npointers, width)
      invariant i > 0 ==> j < |g.lines|
    {
      m, p, j, count := LinkOnePage(g, blk, m, p, i, j, count, npages, npointers, width);
    }
    l := count;
  }

  /** Lines 311-336: threads the ring through the first npages pages. */
  method Link(g: Shape, blk: Block, m0: Memory, npages: nat, npointers: nat, width: nat)
    returns (m: Memory, p: map<nat, int>)
    requires g.Usable(blk) && 0 < npages <= |g.pages| && 0 < width
    requires npointers >= 2 ==> 0 < Quot(npointers, width)
    requires npages >= 2 ==> Times(npages - 1, |g.lines| - 1) < npointers
    ensures Threaded(g, m, p, npages, npointers, width)
  {
    var linked, starts, j;
    ghost var l;
    linked, starts, j, l := LinkPages(g, blk, m0, npages, npointers, width);
    p := starts;
    m := CloseRing(g, blk, linked, npages, j);
    FinishLinks(g, linked, m, npages, j + 1);
  }

  lemma FinishLinks(g: Shape, linked: Memory, m: Memory, npages: nat, last: nat)
    requires g.Valid() && g.Fits(npages, last) && g.PagesDone(linked, npages, npages, last)
    requires g.OnlyLine(linked, m, npages - 1, last - 1) && g.Wrapped(m, npages, last)
    ensures g.Linked(m, npages, last)
  {
    g.OnlyLineOutside(linked, m, npages - 1, last - 1);
    g.Closed(linked, m, npages, last);
  }
}
