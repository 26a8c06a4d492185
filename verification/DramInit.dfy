/** dram_page_initialize (lat_dram_page.c) as a whole. */
module DramInit {
  import opened Arith
  import opened Rings
  import opened Layout
  import opened LibMem
  import opened MemTheorems
  import MemRing
  import opened DramPage
  import DramRing

  /** The chain after regrouping: one cycle, through the lines of the pages in use, of which those of
      the last group have no more than the last page; and the benchmark, which starts at base, starts
      on it when all pages are used. */
  ghost predicate Interleaved(g: Shape, m: Memory, group: nat, np: nat, last: nat) {
    && g.Fits(np, last) && group > 0 && IsRing(m, DramRing.Ring(g, group, np, last))
    && GroupByGroup(g, m, group, np, last)
    && (forall a :: a in DramRing.Ring(g, group, np, last) <==>
          exists i: nat, j: nat, b ::
            i < np && j < DramRing.LinesUsed(g, i, group, np, last) && b in g.words && a == g.At(i, j, b))
    && (np == |g.pages| ==> g.base in DramRing.Ring(g, group, np, last))
  }

  // Page i + 1 continues the group of page i.
  predicate Continues(i: nat, group: nat, np: nat)
    requires group > 0
  {
    i + 1 < np && Rem(i + 1, group) != 0
  }

  // Page i is the last of the group that begins with page s.
  predicate EndsGroup(i: nat, s: nat, group: nat, np: nat)
    requires group > 0
  {
    s <= i < np && i - s < group && Rem(s, group) == 0 && (i + 1 == np || Rem(i + 1, group) == 0)
  }

  /** Where the pointers lead.  In a group, from each word of a page that is not the last to the same word of the
      next page; from the last page of the group, line by line, to the next line of its first page; and from its
      last line to the first line of the next page, or of the very first page, one word on. */
  ghost predicate GroupByGroup(g: Shape, m: Memory, group: nat, np: nat, last: nat)
    requires g.Fits(np, last) && group > 0
  {
    && (forall i: nat, a: int | Continues(i, group, np) && g.InPage(i, a) ::
          Points(m, a, a - g.pages[i] + g.pages[i + 1]))
    && (forall i: nat, s: nat | EndsGroup(i, s, group, np) :: BackAndOn(g, m, i, s, np, last))
  }

  ghost predicate BackAndOn(g: Shape, m: Memory, i: nat, s: nat, np: nat, last: nat)
    requires g.Fits(np, last) && s <= i < np
  {
    Returns(g, m, s, i, g.LinesOn(i, np, last)) && Exits(g, m, i + 1, np, last)
  }

  // The group of page i.
  lemma GroupAround(i: nat, group: nat, np: nat) returns (q: nat, s: nat)
    requires group > 0 && i < np
    ensures Starts(q, s, group) && s <= i < s + SizeAt(s, group, np) && Rem(s, group) == 0 && i - s == Rem(i, group)
  {
    q, s := Quot(i, group), Times(Quot(i, group), group);
    QuotIsDivision(i, group);
    RemOf(q, group, 0);
  }

  lemma WordsLead(g: Shape, m: Memory, group: nat, np: nat, last: nat, i: nat, o: int)
    requires g.Fits(np, last) && group > 0 && GroupsLinked(g, m, np, group, np, last)
    requires Continues(i, group, np) && 0 <= o < g.pagesize && o % WORD == 0
    ensures Points(m, g.base + g.pages[i] + o, g.base + g.pages[i + 1] + o)
  {
    var q, s := GroupAround(i, group, np);
    RemNext(i, group);
    assert GroupInPlace(g, m, s, SizeAt(s, group, np), np, last);
    assert Parallel(g, m, i);
    assert Points(m, Word(g, i, o), Word(g, i + 1, o));
  }

  lemma EndsLead(g: Shape, m: Memory, group: nat, np: nat, last: nat, i: nat, s: nat)
    requires g.Fits(np, last) && group > 0 && GroupsLinked(g, m, np, group, np, last) && EndsGroup(i, s, group, np)
    ensures BackAndOn(g, m, i, s, np, last)
  {
    var q, t := GroupAround(s, group, np);
    EndOfGroup(i, s, group, np);
    InPlace(g, m, group, np, last, q, s);
  }

  lemma InPlace(g: Shape, m: Memory, group: nat, np: nat, last: nat, q: nat, s: nat)
    requires g.Fits(np, last) && group > 0 && GroupsLinked(g, m, np, group, np, last) && Starts(q, s, group) && s < np
    ensures s < s + SizeAt(s, group, np) <= np && BackAndOn(g, m, s + SizeAt(s, group, np) - 1, s, np, last)
  {
    assert GroupInPlace(g, m, s, SizeAt(s, group, np), np, last);
  }

  lemma EndOfGroup(i: nat, s: nat, group: nat, np: nat)
    requires group > 0 && EndsGroup(i, s, group, np)
    ensures i + 1 == s + SizeAt(s, group, np)
  {
    if i + 1 < np {
      var q, t := GroupAround(s, group, np);
      var d := i + 1 - s;
      if d < group {
        RemOf(q, group, d);
      }
    }
  }

  lemma LeadsGroupByGroup(g: Shape, m: Memory, group: nat, np: nat, last: nat)
    requires g.Fits(np, last) && group > 0 && GroupsLinked(g, m, np, group, np, last)
    ensures GroupByGroup(g, m, group, np, last)
  {
    forall i: nat, a: int | Continues(i, group, np) && g.InPage(i, a)
      ensures Points(m, a, a - g.pages[i] + g.pages[i + 1])
    {
      WordsLead(g, m, group, np, last, i, a - g.base - g.pages[i]);
    }
    forall i: nat, s: nat | EndsGroup(i, s, group, np)
      ensures BackAndOn(g, m, i, s, np, last)
    {
      EndsLead(g, m, group, np, last, i, s);
    }
  }

  lemma InterleavedFromGroups(g: Shape, m: Memory, group: nat, np: nat, last: nat)
    requires g.Valid() && g.LinesCover() && g.Fits(np, last) && group > 0
    requires 0 in g.pages && g.lines[0] == 0 && GroupsLinked(g, m, np, group, np, last)
    ensures Interleaved(g, m, group, np, last)
  {
    DramRing.GroupedRing(g, m, group, np, last);
    LeadsGroupByGroup(g, m, group, np, last);
    forall a
      ensures a in DramRing.Ring(g, group, np, last) <==>
        exists i: nat, j: nat, b ::
          i < np && j < DramRing.LinesUsed(g, i, group, np, last) && b in g.words && a == g.At(i, j, b)
    {
      DramRing.GroupedMember(g, group, np, last, a);
    }
    if np == |g.pages| {
      BaseOnRing(g, group, np, last);
    }
  }

  lemma BaseOnRing(g: Shape, group: nat, np: nat, last: nat)
    requires g.Valid() && g.LinesCover() && g.Fits(np, last) && group > 0 && np == |g.pages|
    requires 0 in g.pages && g.lines[0] == 0
    ensures g.base in DramRing.Ring(g, group, np, last)
  {
    var i: nat :| i < |g.pages| && g.pages[i] == 0;
    assert g.words[0] in g.words && g.IsWord(0);
    assert g.base == g.At(i, 0, 0);
    DramRing.GroupedMember(g, group, np, last, g.base);
  }

  /** When the length is a whole number of pages, that is every word of the pages in use. */
  lemma WholePagesInterleaved(g: Shape, group: nat, np: nat, nlines: nat, nwords: nat, len: nat)
    requires Split(g.line, g.pagesize, nlines, nwords) && Ordered(g, nlines, nwords) && g.line > 0
    requires g.Valid() && g.LinesCover() && 0 < np <= |g.pages| && group > 0
    requires 0 < len && IsCeil(np, len, g.pagesize) && Rem(len, g.pagesize) == 0
    ensures var last := MemRing.LastLines(nlines, np, Quot(len, g.line));
      && g.Fits(np, last)
      && forall a :: a in DramRing.Ring(g, group, np, last) <==> exists i: nat :: i < np && g.InPage(i, a)
  {
    WholeLength(len, g.pagesize, np);
    WholePagesUseAllLines(len, g.line, g.pagesize, nlines, nwords, np);
    DramRing.SameSlotsIff(g, group, np, nlines);
    forall a
      ensures a in DramRing.Ring(g, group, np, nlines) <==> exists i: nat :: i < np && g.InPage(i, a)
    {
      WholePagesAreCovered(g, nlines, nwords, np, a);
    }
  }

  lemma PageIsWords(g: Shape, nlines: nat, nwords: nat)
    requires Split(g.line, g.pagesize, nlines, nwords) && g.line > 0
    ensures g.pagesize % WORD == 0
  {
    TimesIsProduct(nlines, g.line);
    WordMultiple(nlines, nwords);
  }

  lemma WordMultiple(a: nat, b: nat)
    ensures a * (b * WORD) % WORD == 0
  {
    assert a * (b * WORD) == a * b * WORD;
  }

  /** dram_page_initialize: mem_initialize, then every group of pages is interleaved.  For a group size
      below 1 the source does not terminate. */
  method DramPageInitialize(state: MemState, group: nat, iterations: nat, block: nat, rnd: nat -> nat)
    requires Sane(state.line, state.pagesize) && 0 < state.len <= state.maxlen && 0 < state.width && group > 0
    requires state.Pointers() < 2 || state.width <= state.Pointers()
    modifies state
    ensures iterations > 0 ==> unchanged(state)
    ensures iterations == 0 && block != 0 ==>
      state.HasSizes() && IsInterleaved(state.Geometry(), state.cells, group, state.npages, state.nlines, state.len)
  {
    state.MemInitialize(iterations, block, rnd);
    if iterations > 0 || block == 0 {
      return;
    }
    PageIsWords(state.Geometry(), state.nlines, state.nwords);
    var m := RegroupAll(state.Geometry(), state.Malloced(), state.cells, state.npages, group,
      MemRing.LastLines(state.nlines, state.npages, state.Pointers()));
    AllInterleaved(state, m, group);
    state.cells := m;
  }

  // One cycle through the slots that Interleaved names; for whole pages, through every word.
  ghost predicate IsInterleaved(g: Shape, m: Memory, group: nat, np: nat, nlines: nat, len: nat) {
    && g.line > 0 && np > 0 && nlines > 0 && g.pagesize > 0
    && var last := MemRing.LastLines(nlines, np, Quot(len, g.line));
      && Interleaved(g, m, group, np, last)
      && (Rem(len, g.pagesize) == 0 ==>
            forall a :: a in DramRing.Ring(g, group, np, last) <==> exists i: nat :: i < np && g.InPage(i, a))
  }

  lemma AllInterleaved(state: MemState, m: Memory, group: nat)
    requires state.HasSizes() && state.Built() && 0 in state.pages[..] && group > 0
    requires Sane(state.line, state.pagesize) && 0 < state.len
    requires GroupsLinked(state.Geometry(), m, state.npages, group, state.npages,
      MemRing.LastLines(state.nlines, state.npages, state.Pointers()))
    ensures IsInterleaved(state.Geometry(), m, group, state.npages, state.nlines, state.len)
  {
    var g, np := state.Geometry(), state.npages;
    OrderFacts(state.nlines, state.line);
    InterleavedFromGroups(g, m, group, np, MemRing.LastLines(state.nlines, np, state.Pointers()));
    if Rem(state.len, g.pagesize) == 0 {
      WholePagesInterleaved(g, group, np, state.nlines, state.nwords, state.len);
    }
  }

  lemma WholeLength(len: nat, pagesize: nat, npages: nat)
    requires pagesize > 0 && Rem(len, pagesize) == 0 && IsCeil(npages, len, pagesize)
    ensures len == Times(npages, pagesize)
  {
    QuotIsDivision(len, pagesize);
    var q := Quot(len, pagesize);
    if q < npages {
      TimesMonotone(q, npages - 1, pagesize);
    } else if q > npages {
      TimesMonotone(npages + 1, q, pagesize);
    }
  }
}
