/** What mem_initialize guarantees, for every length, line size and order of the pages. */
module MemTheorems {
  import opened Arith
  import opened Rings
  import opened Layout
  import opened MemRing
  import opened LibMem

  /** The chain mem_initialize builds is one single cycle through slots of the allocated block,
      and every start pointer it sets lies on it. */
  lemma ThreadedIsRing(g: Shape, blk: Block, m: Memory, p: map<nat, int>, npages: nat, npointers: nat, width: nat)
    requires g.Usable(blk) && Threaded(g, m, p, npages, npointers, width)
    ensures var last := LastLines(|g.lines|, npages, npointers);
      && IsRing(m, g.Ring(npages, last))
      && g.Ring(npages, last)[0] == g.base + g.pages[0] + g.lines[0] + g.words[0]
      && (forall a | a in g.Ring(npages, last) :: blk.Holds(a))
      && (forall k | k in p :: p[k] in g.Ring(npages, last))
  {
    var last := LastLines(|g.lines|, npages, npointers);
    g.RingFromLinks(m, npages, last);
    forall a | a in g.Ring(npages, last)
      ensures blk.Holds(a)
    {
      SlotInBlock(g, blk, npages, last, a);
    }
    forall k | k in p
      ensures p[k] in g.Ring(npages, last)
    {
      assert IsStart(g, k, p[k], Quot(npointers, width), npages - 1, last - 1);
      StartOnRing(g, k, p[k], Quot(npointers, width), npages, last);
    }
  }

  lemma SlotInBlock(g: Shape, blk: Block, npages: nat, last: nat, a: int)
    requires g.Usable(blk) && g.Fits(npages, last) && a in g.Ring(npages, last)
    ensures blk.Holds(a)
  {
    g.RingMember(npages, last, a);
  }

  lemma StartOnRing(g: Shape, k: nat, a: int, step: nat, npages: nat, last: nat)
    requires g.Fits(npages, last) && IsStart(g, k, a, step, npages - 1, last - 1)
    ensures a in g.Ring(npages, last)
  {
    g.RingMember(npages, last, a);
    assert g.words[k % |g.words|] in g.words;
  }

  // The pointers that fall on the last page.
  lemma LastPage(len: nat, line: nat, pagesize: nat, nlines: nat, nwords: nat, npages: nat) returns (q: nat)
    requires 0 < len && 0 < npages && 0 < line
    requires Split(line, pagesize, nlines, nwords) && IsCeil(npages, len, pagesize)
    ensures nlines > 0 && Quot(len, line) == Times(npages - 1, nlines) + q && q <= nlines
    ensures q == nlines <==> len == Times(npages, pagesize)
    ensures npages == 1 ==> (q > 0 <==> line <= len)
  {
    var whole := Times(npages - 1, nlines);
    TimesTimes(npages - 1, nlines, line);
    QuotIsDivision(len, line);
    QuotAtLeast(len, line, whole);
    q := Quot(len, line) - whole;
    TimesAdd(whole, q, line);
    if q >= nlines {
      TimesMonotone(nlines, q, line);
    } else {
      TimesMonotone(q + 1, nlines, line);
    }
    if q > nlines {
      TimesMonotone(nlines + 1, q, line);
      TimesAdd(nlines, 1, line);
    }
  }

  /** The ring has exactly (len / line) slots a lap, the number the code means to place, if and only
      if len is a whole number of pages, or is at most one page (and at least one line).  Otherwise the
      ring is still one cycle, but with more slots: the count l of placed pointers skips the links
      from page to page. */
  lemma ExactIff(len: nat, line: nat, pagesize: nat, nlines: nat, nwords: nat, npages: nat)
    requires 0 < len && 0 < npages && 0 < line
    requires Split(line, pagesize, nlines, nwords) && IsCeil(npages, len, pagesize)
    ensures nlines > 0
    ensures var lap := Times(npages - 1, nlines) + LastLines(nlines, npages, Quot(len, line));
      && lap >= Quot(len, line)
      && (lap == Quot(len, line) <==> len == Times(npages, pagesize) || (npages == 1 && line <= len))
  {
    var q := LastPage(len, line, pagesize, nlines, nwords, npages);
    if npages > 1 {
      TimesLess(npages - 1, nlines);
    }
  }

  /** The loops place as many links inside pages as there are pointers, less one, or as the pages have room
      for: that is how many lines of the last page are on the ring. */
  lemma LinksCount(len: nat, line: nat, pagesize: nat, nlines: nat, nwords: nat, npages: nat)
    requires 0 < line <= len && 0 < npages
    requires Split(line, pagesize, nlines, nwords) && IsCeil(npages, len, pagesize)
    ensures nlines > 0
    ensures var links := (npages - 1) * (nlines - 1) + LastLines(nlines, npages, Quot(len, line)) - 1;
      links == if len / line - 1 < npages * (nlines - 1) then len / line - 1 else npages * (nlines - 1)
  {
    var q := LastPage(len, line, pagesize, nlines, nwords, npages);
    QuotIsDivision(len, line);
    TimesIsProduct(npages - 1, nlines - 1);
    EnoughPointers(len, line, pagesize, nlines, nwords, npages);
    QuotAtLeast(len, line, 1);
    MoreLinks(npages, nlines);
  }

  lemma MoreLinks(npages: nat, nlines: nat)
    requires npages > 0 && nlines > 0
    ensures npages * (nlines - 1) == (npages - 1) * (nlines - 1) + (nlines - 1)
  {
  }

  /** Start pointer k points at word k (modulo the words of a line) of the line where link number
      k * (npointers / width) begins, counting the links inside the pages from 0. */
  lemma StartIs(g: Shape, m: Memory, p: map<nat, int>, npages: nat, npointers: nat, width: nat, k: nat)
    returns (i: nat, j: nat)
    requires Threaded(g, m, p, npages, npointers, width) && k in p
    ensures i < npages && j < |g.lines| - 1 && k < MAX_MEM_PARALLELISM && g.words != []
    ensures i * (|g.lines| - 1) + j == k * (npointers / width)
    ensures p[k] == g.base + g.pages[i] + g.lines[j] + g.words[k % |g.words|]
  {
    var last := LastLines(|g.lines|, npages, npointers);
    assert IsStart(g, k, p[k], Quot(npointers, width), npages - 1, last - 1);
    i, j :| StartsAt(g, k, p[k], Quot(npointers, width), i, j) && (i < npages - 1 || (i == npages - 1 && j < last - 1));
    QuotIsDivision(npointers, width);
    TimesIsProduct(i, |g.lines| - 1);
    TimesIsProduct(k, Quot(npointers, width));
  }

  // With whole pages every line of the last page is on the ring.
  lemma WholePagesUseAllLines(len: nat, line: nat, pagesize: nat, nlines: nat, nwords: nat, npages: nat)
    requires 0 < len && 0 < npages && 0 < line
    requires Split(line, pagesize, nlines, nwords) && IsCeil(npages, len, pagesize) && len == Times(npages, pagesize)
    ensures nlines > 0 && LastLines(nlines, npages, Quot(len, line)) == nlines
  {
    var q := LastPage(len, line, pagesize, nlines, nwords, npages);
    if npages > 1 {
      TimesLess(npages - 1, nlines);
    }
  }

  /** With whole pages the ring runs through every pointer-sized word of its pages. */
  lemma WholePagesAreCovered(g: Shape, nlines: nat, nwords: nat, npages: nat, a: int)
    requires Split(g.line, g.pagesize, nlines, nwords) && Ordered(g, nlines, nwords)
    requires g.Valid() && g.LinesCover() && 0 < npages <= |g.pages|
    ensures a in g.Ring(npages, nlines) <==>
      exists i: nat :: i < npages && g.InPage(i, a)
  {
    if a in g.Ring(npages, nlines) {
      g.RingMember(npages, nlines, a);
      var i: nat, j: nat, b :| i < npages && j < nlines && b in g.words && a == g.At(i, j, b);
      SlotInPage(g, i, j, b);
    }
    if i: nat :| i < npages && g.InPage(i, a) {
      WordOnRing(g, nlines, nwords, npages, i, a);
    }
  }

  lemma SlotInPage(g: Shape, i: nat, j: nat, b: int)
    requires g.LinesCover() && i < |g.pages| && j < |g.lines| && b in g.words
    ensures g.InPage(i, g.At(i, j, b))
  {
  }

  lemma WordOnRing(g: Shape, nlines: nat, nwords: nat, npages: nat, i: nat, a: int)
    requires Split(g.line, g.pagesize, nlines, nwords) && Ordered(g, nlines, nwords)
    requires g.LinesCover() && i < npages <= |g.pages| && g.InPage(i, a)
    ensures |g.lines| == nlines && g.Fits(npages, nlines) && a in g.Ring(npages, nlines)
  {
    var o := a - g.base - g.pages[i];
    var j := WordOfPage(g, nlines, nwords, o);
    assert a == g.At(i, j, o - g.lines[j]);
    g.RingMember(npages, nlines, a);
  }

  // Every word of a page belongs to one of its lines.
  lemma WordOfPage(g: Shape, nlines: nat, nwords: nat, o: int) returns (j: nat)
    requires Split(g.line, g.pagesize, nlines, nwords) && Ordered(g, nlines, nwords) && g.LinesCover()
    requires 0 <= o < g.pagesize && o % WORD == 0
    ensures j < |g.lines| && o - g.lines[j] in g.words
  {
    var q := LineAt(g.line, nlines, o);
    OrderFacts(nlines, g.line);
    TimesIsProduct(q, g.line);
    j := IndexOf(g.lines, q * g.line);
    WordAt(g.lines[j], g.line, o);
    assert g.IsWord(o - g.lines[j]);
  }

  lemma LineAt(line: nat, nlines: nat, o: nat) returns (q: nat)
    requires o < Times(nlines, line) && line > 0
    ensures q < nlines && Times(q, line) <= o < Times(q, line) + line
  {
    q := Quot(o, line);
    QuotIsDivision(o, line);
    if q >= nlines {
      TimesMonotone(nlines, q, line);
    }
  }

  lemma IndexOf(s: seq<int>, x: int) returns (j: nat)
    requires x in s
    ensures j < |s| && s[j] == x
  {
    j :| 0 <= j < |s| && s[j] == x;
  }

  lemma WordAt(l: int, line: nat, o: int)
    requires l <= o < l + line && l % WORD == 0 && o % WORD == 0 && line % WORD == 0
    ensures 0 <= o - l <= line - WORD && (o - l) % WORD == 0
  {
  }

  /** All the start pointers a benchmark of this width uses are set if and only if the last of them
      falls on a link: with few lines and a large width some are left unset. */
  lemma AllStartsIff(g: Shape, m: Memory, p: map<nat, int>, npages: nat, npointers: nat, width: nat)
    requires Threaded(g, m, p, npages, npointers, width) && width <= MAX_MEM_PARALLELISM
    ensures (forall k: nat :: k < width ==> k in p) <==>
      Times(width - 1, Quot(npointers, width))
        < Times(npages - 1, |g.lines| - 1) + LastLines(|g.lines|, npages, npointers) - 1
  {
    var step, links := Quot(npointers, width),
      Times(npages - 1, |g.lines| - 1) + LastLines(|g.lines|, npages, npointers) - 1;
    if Reached(width - 1, step, links) {
      forall k: nat | k < width
        ensures k in p
      {
        TimesMonotone(k, width - 1, step);
        assert Reached(k, step, links);
      }
    }
  }

  /** For example: one page of eight lines and width 8 sets seven start pointers, not eight. */
  lemma EightStartsNeedMore(g: Shape, m: Memory, p: map<nat, int>)
    requires |g.lines| == 8 && Threaded(g, m, p, 1, 8, 8)
    ensures 7 !in p
  {
    assert Quot(8, 8) == 1;
    TimesIsProduct(7, 1);
    assert !Reached(7, 1, 7);
  }
}
