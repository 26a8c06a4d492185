/** regroup and dram_page_initialize (lat_dram_page.c): interleaving groups of pages of a ring. */
module DramPage {
  import opened Arith
  import opened Rings
  import opened Layout

  // The word at offset o of page i.
  function Word(g: Shape, i: nat, o: int): int
    requires i < |g.pages|
  {
    g.base + g.pages[i] + o
  }

  ghost predicate IsOffset(g: Shape, o: int) {
    0 <= o < g.pagesize && o % WORD == 0
  }

  // Every word of page i points at the same word of page i + 1.
  ghost predicate Parallel(g: Shape, m: Memory, i: nat)
    requires i + 1 < |g.pages|
  {
    forall o | IsOffset(g, o) :: Points(m, Word(g, i, o), Word(g, i + 1, o))
  }

  // What regroup makes of a pointer in the last page of a group that starts at page s.
  function Redirect(g: Shape, s: nat, t: nat, ptr: int): int
    requires s < |g.pages| && t < |g.pages|
  {
    if Word(g, t, 0) <= ptr < Word(g, t, g.pagesize) then Word(g, s, ptr - Word(g, t, 0)) else ptr
  }

  // The words of page t that were written are redirected to page s in m'.
  ghost predicate Redirected(g: Shape, m: Memory, m': Memory, s: nat, t: nat)
    requires s < |g.pages| && t < |g.pages|
  {
    forall o | IsOffset(g, o) && Word(g, t, o) in m :: Points(m', Word(g, t, o), Redirect(g, s, t, m[Word(g, t, o)]))
  }

  ghost predicate PageSame(g: Shape, m: Memory, m': Memory, i: nat)
    requires i < |g.pages|
  {
    forall o | IsOffset(g, o) :: var a := Word(g, i, o); (a in m <==> a in m') && (a in m ==> m[a] == m'[a])
  }

  // The words of page i before offset e point to page i + 1.
  ghost predicate ParallelTo(g: Shape, m: Memory, i: nat, e: int)
    requires i + 1 < |g.pages|
  {
    forall o | IsOffset(g, o) && o < e :: Points(m, Word(g, i, o), Word(g, i + 1, o))
  }

  lemma WordHolds(g: Shape, blk: Block, i: nat, e: int)
    requires g.PagesIn(blk) && i < |g.pages| && g.pagesize % WORD == 0 && IsOffset(g, e)
    ensures blk.Holds(Word(g, i, e))
  {
    AlignedSum(g.base, g.pages[i], e);
    if e > g.pagesize - WORD {
      NextAligned(g.pagesize, e);
    }
  }

  lemma ParallelOne(g: Shape, m0: Memory, m: Memory, i: nat, e: int)
    requires i + 1 < |g.pages| && IsOffset(g, e)
    requires ParallelTo(g, m, i, e) && SameOutside(m0, m, Word(g, i, 0), Word(g, i, g.pagesize))
    ensures var m' := m[Word(g, i, e) := Word(g, i + 1, e)];
            ParallelTo(g, m', i, e + WORD) && SameOutside(m0, m', Word(g, i, 0), Word(g, i, g.pagesize))
  {
    var m' := m[Word(g, i, e) := Word(g, i + 1, e)];
    forall o | IsOffset(g, o) && o < e + WORD
      ensures Points(m', Word(g, i, o), Word(g, i + 1, o))
    {
      NextAligned(o, e);
      if o < e {
        assert Points(m, Word(g, i, o), Word(g, i + 1, o));
      }
    }
  }

  /** Lines 125-127: points every word of page i at the same word of page i + 1. */
  method PointAtNext(g: Shape, blk: Block, m0: Memory, i: nat) returns (m: Memory)
    requires g.Usable(blk) && i + 1 < |g.pages| && g.pagesize % WORD == 0
    ensures Parallel(g, m, i)
    ensures SameOutside(m0, m, Word(g, i, 0), Word(g, i, g.pagesize))
  {
    m := m0;
    var j := 0;
    while j < g.pagesize
      invariant 0 <= j <= g.pagesize && j % WORD == 0
      invariant ParallelTo(g, m, i, j) && SameOutside(m0, m, Word(g, i, 0), Word(g, i, g.pagesize))
    {
      WordHolds(g, blk, i, j);
      ParallelOne(g, m0, m, i, j);
      m := blk.Store(m, g.base + g.pages[i] + j, g.base + g.pages[i + 1] + j);
      j := j + WORD;
    }
  }

  // Of the words written, those of page t before offset e are redirected to page s; the others are as in m0.
  ghost predicate RedirectedTo(g: Shape, m0: Memory, m: Memory, s: nat, t: nat, e: int)
    requires s < |g.pages| && t < |g.pages|
  {
    forall o | IsOffset(g, o) :: WordAfter(g, m0, m, s, t, e, o)
  }

  predicate WordAfter(g: Shape, m0: Memory, m: Memory, s: nat, t: nat, e: int, o: int)
    requires s < |g.pages| && t < |g.pages|
  {
    var a := Word(g, t, o);
    if a in m0 then Points(m, a, if o < e then Redirect(g, s, t, m0[a]) else m0[a]) else a !in m
  }

  lemma RedirectOne(g: Shape, m0: Memory, m: Memory, s: nat, t: nat, e: int)
    requires s < |g.pages| && t < |g.pages|
    requires IsOffset(g, e) && RedirectedTo(g, m0, m, s, t, e)
    ensures var a := Word(g, t, e);
      && (a in m <==> a in m0)
      && (a in m0 ==> m[a] == m0[a] && RedirectedTo(g, m0, m[a := Redirect(g, s, t, m0[a])], s, t, e + WORD))
      && (a !in m0 ==> RedirectedTo(g, m0, m, s, t, e + WORD))
  {
    var a := Word(g, t, e);
    assert WordAfter(g, m0, m, s, t, e, e);
    var m' := if a in m0 then m[a := Redirect(g, s, t, m0[a])] else m;
    forall o | IsOffset(g, o)
      ensures WordAfter(g, m0, m', s, t, e + WORD, o)
    {
      assert WordAfter(g, m0, m, s, t, e, o);
      if o < e + WORD {
        NextAligned(o, e);
      }
    }
  }

  lemma StoreSame(m: Memory, a: int)
    requires a in m
    ensures m[a := m[a]] == m
  {
  }

  /** Lines 140-148: the pointers of page t that stay in the page go to page s instead.  A word that was
      never written has no known value, and none afterwards. */
  method PointAtFirst(g: Shape, blk: Block, m0: Memory, s: nat, t: nat) returns (m: Memory)
    requires g.Usable(blk) && s < t < |g.pages| && g.pagesize % WORD == 0
    ensures Redirected(g, m0, m, s, t)
    ensures SameOutside(m0, m, Word(g, t, 0), Word(g, t, g.pagesize))
  {
    m := m0;
    var i := 0;
    while i < g.pagesize
      invariant 0 <= i <= g.pagesize && i % WORD == 0
      invariant RedirectedTo(g, m0, m, s, t, i)
      invariant SameOutside(m0, m, Word(g, t, 0), Word(g, t, g.pagesize))
    {
      m := PointOneAtFirst(g, blk, m0, m, s, t, i);
      i := i + WORD;
    }
  }

  method PointOneAtFirst(g: Shape, blk: Block, ghost m0: Memory, m: Memory, s: nat, t: nat, i: nat)
      returns (m': Memory)
    requires g.Usable(blk) && s < t < |g.pages| && g.pagesize % WORD == 0 && IsOffset(g, i)
    requires RedirectedTo(g, m0, m, s, t, i)
    requires SameOutside(m0, m, Word(g, t, 0), Word(g, t, g.pagesize))
    ensures RedirectedTo(g, m0, m', s, t, i + WORD)
    ensures SameOutside(m0, m', Word(g, t, 0), Word(g, t, g.pagesize))
  {
    var page := g.base + g.pages[t];
    var pageEnd := page + g.pagesize;
    WordHolds(g, blk, t, i);
    RedirectOne(g, m0, m, s, t, i);
    m' := m;
    if page + i !in m {
      return;
    }
    StoreSame(m, page + i);
    var ptr := m[page + i];
    if page <= ptr < pageEnd {
      var offset := ptr - page;
      m' := blk.Store(m, page + i, g.base + g.pages[s] + offset);
    }
  }

  /** regroup, for the n pages that start at page s of the list. */
  method Regroup(g: Shape, blk: Block, m0: Memory, s: nat, n: nat) returns (m: Memory)
    requires g.Usable(blk) && s + n <= |g.pages| && g.pagesize % WORD == 0 && n > 0
    ensures n == 1 ==> m == m0
    ensures forall i: nat | s <= i < s + n - 1 :: Parallel(g, m, i)
    ensures n > 1 ==> Redirected(g, m0, m, s, s + n - 1)
    ensures forall i: nat | i < |g.pages| && (i < s || s + n <= i) :: PageSame(g, m0, m, i)
  {
    m := m0;
    if n <= 1 {
      return;
    }
    var t := s + n - 1;
    for i := 0 to n - 1
      invariant forall i': nat | s <= i' < s + i :: Parallel(g, m, i')
      invariant forall i': nat | i' < |g.pages| && (i' < s || s + n - 1 <= i') :: PageSame(g, m0, m, i')
    {
      var m1 := PointAtNext(g, blk, m, s + i);
      OtherPagesSame(g, m, m1, s + i);
      forall i': nat | s <= i' < s + i
        ensures Parallel(g, m1, i')
      {
        KeepsParallel(g, m, m1, i');
      }
      forall i': nat | i' < |g.pages| && (i' < s || s + n - 1 <= i')
        ensures PageSame(g, m0, m1, i')
      {
        SameTwice(g, m0, m, m1, i');
      }
      m := m1;
    }
    ghost var parallel := m;
    assert PageSame(g, m0, m, t);
    m := PointAtFirst(g, blk, m, s, t);
    OtherPagesSame(g, parallel, m, t);
    forall i': nat | s <= i' < s + n - 1
      ensures Parallel(g, m, i')
    {
      KeepsParallel(g, parallel, m, i');
    }
    forall i': nat | i' < |g.pages| && (i' < s || s + n <= i')
      ensures PageSame(g, m0, m, i')
    {
      SameTwice(g, m0, parallel, m, i');
    }
  }

  lemma SameTwice(g: Shape, m: Memory, m': Memory, m'': Memory, i: nat)
    requires i < |g.pages| && PageSame(g, m, m', i) && PageSame(g, m', m'', i)
    ensures PageSame(g, m, m'', i)
  {
    forall o | IsOffset(g, o)
      ensures var a := Word(g, i, o); (a in m <==> a in m'') && (a in m ==> m[a] == m''[a])
    {
      assert Word(g, i, o) in m <==> Word(g, i, o) in m';
    }
  }

  lemma OtherPagesSame(g: Shape, m: Memory, m': Memory, i: nat)
    requires g.Valid() && i < |g.pages| && SameOutside(m, m', Word(g, i, 0), Word(g, i, g.pagesize))
    ensures forall i': nat | i' < |g.pages| && i' != i :: PageSame(g, m, m', i')
  {
  }

  lemma KeepsParallel(g: Shape, m: Memory, m': Memory, i: nat)
    requires i + 1 < |g.pages| && Parallel(g, m, i) && PageSame(g, m, m', i)
    ensures Parallel(g, m', i)
  {
  }

  // ---- A group of n pages from page s on ------------------------------------------------

  lemma AtIsWord(g: Shape, i: nat, j: nat, b: int)
    requires g.LinesCover() && i < |g.pages| && j < |g.lines| && b in g.words
    ensures g.At(i, j, b) == Word(g, i, g.lines[j] + b) && IsOffset(g, g.lines[j] + b)
  {
  }

  // Line j of the last page of the group leads to line j + 1 of its first page, for the first nl lines.
  ghost predicate Returns(g: Shape, m: Memory, s: nat, t: nat, nl: nat)
    requires s < |g.pages| && t < |g.pages| && nl <= |g.lines|
  {
    forall j: nat, j': nat, b {:trigger g.At(t, j, b), g.At(s, j', b)} | j' == j + 1 < nl && b in g.words ::
      Points(m, g.At(t, j, b), g.At(s, j', b))
  }

  ghost predicate GroupLinked(g: Shape, m: Memory, s: nat, n: nat, nl: nat)
    requires s + n <= |g.pages| && nl <= |g.lines|
  {
    && n > 0 && (forall i: nat | s <= i < s + n - 1 :: Parallel(g, m, i))
    && Returns(g, m, s, s + n - 1, nl)
  }

  // The last line of page e - 1 leads to the next page, or, from the last page, back to the start.
  ghost predicate Exits(g: Shape, m: Memory, e: nat, np: nat, last: nat)
    requires g.Fits(np, last) && 0 < e <= np
  {
    if e < np then g.LinkedTo(m, e - 1, e) else g.Wrapped(m, np, last)
  }

  // The n pages from page s on are a group with as many lines as its last page, and it leads on.
  ghost predicate GroupInPlace(g: Shape, m: Memory, s: nat, n: nat, np: nat, last: nat)
    requires g.Fits(np, last) && n > 0 && s + n <= np
  {
    GroupLinked(g, m, s, n, g.LinesOn(s + n - 1, np, last)) && Exits(g, m, s + n, np, last)
  }

  lemma KeepsGroup(g: Shape, m: Memory, m': Memory, s: nat, n: nat, np: nat, last: nat)
    requires g.LinesCover() && g.Fits(np, last) && n > 0 && s + n <= np
    requires forall i: nat | s <= i < s + n :: PageSame(g, m, m', i)
    requires GroupInPlace(g, m, s, n, np, last)
    ensures GroupInPlace(g, m', s, n, np, last)
  {
    var t := s + n - 1;
    assert PageSame(g, m, m', t);
    forall i: nat | s <= i < t
      ensures Parallel(g, m', i)
    {
      KeepsParallel(g, m, m', i);
    }
    forall j: nat, j': nat, b | j' == j + 1 < g.LinesOn(t, np, last) && b in g.words
      ensures Points(m', g.At(t, j, b), g.At(s, j', b))
    {
      AtIsWord(g, t, j, b);
      assert Points(m, g.At(t, j, b), g.At(s, j', b));
    }
    KeepsExit(g, m, m', s + n, np, last);
  }

  lemma KeepsExit(g: Shape, m: Memory, m': Memory, e: nat, np: nat, last: nat)
    requires g.LinesCover() && g.Fits(np, last) && 0 < e <= np && PageSame(g, m, m', e - 1) && Exits(g, m, e, np, last)
    ensures Exits(g, m', e, np, last)
  {
    if e < np {
      KeepsToNext(g, m, m', e);
    } else {
      KeepsWrap(g, m, m', np, last);
    }
  }

  lemma KeepsToNext(g: Shape, m: Memory, m': Memory, e: nat)
    requires g.LinesCover() && 0 < e < |g.pages| && PageSame(g, m, m', e - 1) && g.LinkedTo(m, e - 1, e)
    ensures g.LinkedTo(m', e - 1, e)
  {
    var j := |g.lines| - 1;
    forall b | b in g.words
      ensures Points(m', g.At(e - 1, j, b), g.At(e, 0, b))
    {
      KeepsPointer(g, m, m', e - 1, j, b, g.At(e, 0, b));
    }
  }

  lemma KeepsWrap(g: Shape, m: Memory, m': Memory, np: nat, last: nat)
    requires g.LinesCover() && g.Fits(np, last) && PageSame(g, m, m', np - 1) && g.Wrapped(m, np, last)
    ensures g.Wrapped(m', np, last)
  {
    forall k: nat | k < |g.words|
      ensures Points(m', g.At(np - 1, last - 1, g.words[k]), g.At(0, 0, g.NextWord(k)))
    {
      KeepsPointer(g, m, m', np - 1, last - 1, g.words[k], g.At(0, 0, g.NextWord(k)));
    }
  }

  lemma KeepsPointer(g: Shape, m: Memory, m': Memory, i: nat, j: nat, b: int, ptr: int)
    requires g.LinesCover() && i < |g.pages| && j < |g.lines| && b in g.words
    requires PageSame(g, m, m', i) && Points(m, g.At(i, j, b), ptr)
    ensures Points(m', g.At(i, j, b), ptr)
  {
    AtIsWord(g, i, j, b);
  }

  // ---- One group -------------------------------------------------------------------------

  // A page as mem_initialize leaves it: linked line by line, and on to the next page.
  ghost predicate Fresh(g: Shape, m: Memory, i: nat, np: nat, last: nat)
    requires g.Fits(np, last) && i < np
  {
    g.LinkedInPage(m, i, g.LinesOn(i, np, last)) && Exits(g, m, i + 1, np, last)
  }

  // regroup turns fresh pages into a group.
  lemma GroupFromFresh(g: Shape, m: Memory, m': Memory, s: nat, n: nat, np: nat, last: nat)
    requires g.Valid() && g.LinesCover() && g.Fits(np, last) && n > 0 && s + n <= np
    requires Fresh(g, m, s + n - 1, np, last)
    requires n == 1 ==> m' == m
    requires forall i: nat | s <= i < s + n - 1 :: Parallel(g, m', i)
    requires n > 1 ==> Redirected(g, m, m', s, s + n - 1)
    ensures GroupInPlace(g, m', s, n, np, last)
  {
    var t := s + n - 1;
    forall j: nat, j': nat, b | j' == j + 1 < g.LinesOn(t, np, last) && b in g.words
      ensures Points(m', g.At(t, j, b), g.At(s, j', b))
    {
      assert Points(m, g.At(t, j, b), g.At(t, j', b));
      if n > 1 {
        AtIsWord(g, t, j, b);
        AtIsWord(g, t, j', b);
        AtIsWord(g, s, j', b);
      }
    }
    if n > 1 {
      ExitFromFresh(g, m, m', s, s + n, np, last);
    }
  }

  lemma ExitFromFresh(g: Shape, m: Memory, m': Memory, s: nat, e: nat, np: nat, last: nat)
    requires g.Valid() && g.LinesCover() && g.Fits(np, last) && s + 1 < e <= np
    requires Exits(g, m, e, np, last) && Redirected(g, m, m', s, e - 1)
    ensures Exits(g, m', e, np, last)
  {
    if e < np {
      ExitToNext(g, m, m', s, e);
    } else {
      ExitToFirst(g, m, m', s, np, last);
    }
  }

  lemma ExitToNext(g: Shape, m: Memory, m': Memory, s: nat, e: nat)
    requires g.Valid() && g.LinesCover() && s + 1 < e < |g.pages|
    requires g.LinkedTo(m, e - 1, e) && Redirected(g, m, m', s, e - 1)
    ensures g.LinkedTo(m', e - 1, e)
  {
    var t, j := e - 1, |g.lines| - 1;
    forall b | b in g.words
      ensures Points(m', g.At(t, j, b), g.At(e, 0, b))
    {
      LeavesPage(g, m, m', s, t, j, b, e, b);
    }
  }

  lemma ExitToFirst(g: Shape, m: Memory, m': Memory, s: nat, np: nat, last: nat)
    requires g.Valid() && g.LinesCover() && g.Fits(np, last) && s + 1 < np
    requires g.Wrapped(m, np, last) && Redirected(g, m, m', s, np - 1)
    ensures g.Wrapped(m', np, last)
  {
    forall k: nat | k < |g.words|
      ensures Points(m', g.At(np - 1, last - 1, g.words[k]), g.At(0, 0, g.NextWord(k)))
    {
      BackLeavesPage(g, m, m', s, np, last, k);
    }
  }

  lemma BackLeavesPage(g: Shape, m: Memory, m': Memory, s: nat, np: nat, last: nat, k: nat)
    requires g.Valid() && g.LinesCover() && g.Fits(np, last) && s + 1 < np && k < |g.words|
    requires Redirected(g, m, m', s, np - 1)
    requires Points(m, g.At(np - 1, last - 1, g.words[k]), g.At(0, 0, g.NextWord(k)))
    ensures Points(m', g.At(np - 1, last - 1, g.words[k]), g.At(0, 0, g.NextWord(k)))
  {
    LeavesPage(g, m, m', s, np - 1, last - 1, g.words[k], 0, g.NextWord(k));
  }

  // A pointer to another page is not redirected.
  lemma LeavesPage(g: Shape, m: Memory, m': Memory, s: nat, t: nat, j: nat, b: int, i': nat, b': int)
    requires g.Valid() && g.LinesCover() && s < |g.pages| && t < |g.pages| && i' < |g.pages| && i' != t
    requires j < |g.lines| && b in g.words && b' in g.words
    requires Redirected(g, m, m', s, t) && Points(m, g.At(t, j, b), g.At(i', 0, b'))
    ensures Points(m', g.At(t, j, b), g.At(i', 0, b'))
  {
    AtIsWord(g, t, j, b);
    AtIsWord(g, i', 0, b');
  }

  // ---- All groups --------------------------------------------------------------------------

  // How many of the np pages are in the group that starts at page s.
  function SizeAt(s: nat, group: nat, np: nat): nat
    requires s < np
  {
    if group > np - s then np - s else group
  }

  // The groups that start before page e are linked.
  ghost predicate GroupsLinked(g: Shape, m: Memory, e: nat, group: nat, np: nat, last: nat)
    requires g.Fits(np, last) && group > 0
  {
    forall q: nat, s: nat {:trigger Starts(q, s, group)} | Starts(q, s, group) && s < e && s < np ::
      GroupInPlace(g, m, s, SizeAt(s, group, np), np, last)
  }

  // Group q starts at page s.
  predicate Starts(q: nat, s: nat, group: nat) {
    s == Times(q, group)
  }

  lemma RingIsFresh(g: Shape, m: Memory, i: nat, np: nat, last: nat)
    requires g.Fits(np, last) && i < np && g.Linked(m, np, last)
    ensures Fresh(g, m, i, np, last)
  {
    if i + 1 < np {
      assert g.LinkedTo(m, i, i + 1);
    }
  }

  lemma KeepsFresh(g: Shape, m: Memory, m': Memory, i: nat, np: nat, last: nat)
    requires g.LinesCover() && g.Fits(np, last) && i < np && Fresh(g, m, i, np, last) && PageSame(g, m, m', i)
    ensures Fresh(g, m', i, np, last)
  {
    KeepsExit(g, m, m', i + 1, np, last);
    forall j: nat, j': nat, b | j' == j + 1 < g.LinesOn(i, np, last) && b in g.words
      ensures Points(m', g.At(i, j, b), g.At(i, j', b))
    {
      KeepsPointer(g, m, m', i, j, b, g.At(i, j', b));
    }
  }

  /** Lines 165-171 of dram_page_initialize, on the ring mem_initialize has built over np pages, of
      which the last has `last` lines on the ring.  With a group size below 1 the source does not
      terminate. */
  method RegroupAll(g: Shape, blk: Block, m0: Memory, np: nat, group: nat, ghost last: nat) returns (m: Memory)
    requires g.Usable(blk) && g.Fits(np, last) && group > 0 && g.pagesize % WORD == 0
    requires g.Linked(m0, np, last)
    ensures GroupsLinked(g, m, np, group, np, last)
  {
    m := m0;
    var i := 0;
    ghost var q := 0;
    forall i': nat | i' < np
      ensures Fresh(g, m, i', np, last)
    {
      RingIsFresh(g, m, i', np, last);
    }
    while i < np
      invariant Starts(q, i, group)
      invariant GroupsLinked(g, m, i, group, np, last)
      invariant forall i': nat | i <= i' < np :: Fresh(g, m, i', np, last)
    {
      var groupsize := group;
      if groupsize > np - i {
        groupsize := np - i;
      }
      var m1 := Regroup(g, blk, m, i, groupsize);
      GroupDone(g, m, m1, i, q, group, np, last);
      m := m1;
      i, q := i + group, q + 1;
    }
  }

  // What regroup has done to the group that starts at page s.
  ghost predicate Regrouped(g: Shape, m: Memory, m': Memory, s: nat, n: nat)
    requires n > 0 && s + n <= |g.pages|
  {
    && (n == 1 ==> m' == m)
    && (forall i: nat | s <= i < s + n - 1 :: Parallel(g, m', i))
    && (n > 1 ==> Redirected(g, m, m', s, s + n - 1))
    && (forall i: nat | i < |g.pages| && (i < s || s + n <= i) :: PageSame(g, m, m', i))
  }

  lemma GroupDone(g: Shape, m: Memory, m': Memory, s: nat, q: nat, group: nat, np: nat, last: nat)
    requires g.Valid() && g.LinesCover() && group > 0 && g.Fits(np, last) && s < np && Starts(q, s, group)
    requires Regrouped(g, m, m', s, SizeAt(s, group, np)) && GroupsLinked(g, m, s, group, np, last)
    requires forall i: nat | s <= i < np :: Fresh(g, m, i, np, last)
    ensures GroupsLinked(g, m', s + group, group, np, last)
    ensures forall i: nat | s + group <= i < np :: Fresh(g, m', i, np, last)
  {
    var n := SizeAt(s, group, np);
    assert Fresh(g, m, s + n - 1, np, last);
    GroupFromFresh(g, m, m', s, n, np, last);
    MoreLinked(g, m, m', s, q, group, np, last);
    StillFresh(g, m, m', s, group, np, last);
  }

  lemma MoreLinked(g: Shape, m: Memory, m': Memory, s: nat, q: nat, group: nat, np: nat, last: nat)
    requires g.LinesCover() && group > 0 && g.Fits(np, last) && s < np && Starts(q, s, group)
    requires GroupsLinked(g, m, s, group, np, last) && forall i: nat | i < s :: PageSame(g, m, m', i)
    requires GroupInPlace(g, m', s, SizeAt(s, group, np), np, last)
    ensures GroupsLinked(g, m', s + group, group, np, last)
  {
    forall q': nat, s': nat | Starts(q', s', group) && s' < s + group && s' < np
      ensures GroupInPlace(g, m', s', SizeAt(s', group, np), np, last)
    {
      GroupsInOrder(q', s', q, s, group);
      if q' < q {
        EarlierGroupKept(g, m, m', q', s', s, group, np, last);
      }
    }
  }

  lemma GroupsInOrder(q': nat, s': nat, q: nat, s: nat, group: nat)
    requires group > 0 && Starts(q', s', group) && Starts(q, s, group)
    ensures q' < q ==> s' + group <= s
    ensures q' == q ==> s' == s
    ensures q' > q ==> s + group <= s'
  {
    if q' > q {
      TimesMonotone(q + 1, q', group);
    } else if q' < q {
      TimesMonotone(q' + 1, q, group);
    }
  }

  lemma StillFresh(g: Shape, m: Memory, m': Memory, s: nat, group: nat, np: nat, last: nat)
    requires g.Valid() && g.LinesCover() && group > 0 && g.Fits(np, last) && s < np
    requires Regrouped(g, m, m', s, SizeAt(s, group, np)) && forall i: nat | s <= i < np :: Fresh(g, m, i, np, last)
    ensures forall i: nat | s + group <= i < np :: Fresh(g, m', i, np, last)
  {
    forall i: nat | s + group <= i < np
      ensures Fresh(g, m', i, np, last)
    {
      KeepsFresh(g, m, m', i, np, last);
    }
  }

  lemma EarlierGroupKept(g: Shape, m: Memory, m': Memory, q': nat, s': nat, s: nat, group: nat, np: nat, last: nat)
    requires g.LinesCover() && group > 0 && g.Fits(np, last) && s' + group <= s < np && Starts(q', s', group)
    requires GroupsLinked(g, m, s, group, np, last)
    requires forall i: nat | i < s :: PageSame(g, m, m', i)
    ensures GroupInPlace(g, m', s', SizeAt(s', group, np), np, last)
  {
    KeepsGroup(g, m, m', s', group, np, last);
  }
}
