/** line_initialize and line_test (lib_mem.c): a ring through the first word of every line, and
    its temporary shortening for a trial line size. */
module LineRing {
  import opened Arith
  import opened Bits
  import opened Rings
  import opened Words
  import opened Layout
  import opened LibMem

  // Only the first word of a line is used.
  function FirstWords(g: Shape): Shape {
    g.(words := [0])
  }

  // line_initialize uses all lines of the first np pages.
  ghost function LineLoop(g: Shape, np: nat): seq<int> {
    FirstWords(g).Ring(np, |g.lines|)
  }

  // Lines hold a word and are aligned, and the pages lie in the block.
  ghost predicate Roomy(g: Shape, blk: Block) {
    FirstWords(g).Valid() && g.PagesIn(blk) && forall j :: 0 <= j < |g.lines| ==> g.lines[j] % WORD == 0
  }

  // Points the first word of line j of page i at the first word of line j' of page i'.
  method PointFirst(g: Shape, blk: Block, m0: Memory, i: nat, j: nat, i': nat, j': nat) returns (m: Memory)
    requires Roomy(g, blk) && i < |g.pages| && j < |g.lines| && i' < |g.pages| && j' < |g.lines|
    ensures m == m0[g.At(i, j, 0) := g.At(i', j', 0)]
    ensures WORD <= g.line && SameOutside(m0, m, g.At(i, j, 0), g.At(i, j, 0) + g.line)
  {
    assert FirstWords(g).words[0] == 0;
    m := blk.Store(m0, g.base + g.pages[i] + g.lines[j], g.base + g.pages[i'] + g.lines[j']);
  }

  /** Lines 381-389: the lines of page i, and from its last line on to page i'. */
  method ChainLines(g: Shape, blk: Block, m0: Memory, i: nat, i': nat) returns (m: Memory)
    requires Roomy(g, blk) && i < |g.pages| && i' < |g.pages|
    ensures SameOutside(m0, m, g.base + g.pages[i], g.base + g.pages[i] + g.pagesize)
    ensures FirstWords(g).LinkedInPage(m, i, |g.lines|) && FirstWords(g).LinkedTo(m, i, i')
  {
    ghost var h := FirstWords(g);
    m := m0;
    var nlines := |g.lines|;
    for j := 0 to nlines - 1
      invariant SameOutside(m0, m, g.base + g.pages[i], g.base + g.pages[i] + g.pagesize)
      invariant h.LinkedInPage(m, i, j + 1)
    {
      var m1 := PointFirst(g, blk, m, i, j, i, j + 1);
      h.KeepsLines(m, m1, i, j, i, j + 1);
      m := m1;
    }
    var m1 := PointFirst(g, blk, m, i, nlines - 1, i', 0);
    h.KeepsLines(m, m1, i, nlines - 1, i, nlines);
    m := m1;
  }

  /** Lines 380-390. */
  method LinkLines(g: Shape, blk: Block, m0: Memory, np: nat) returns (m: Memory)
    requires Roomy(g, blk) && 0 < np <= |g.pages|
    ensures FirstWords(g).Linked(m, np, |g.lines|)
    ensures IsRing(m, LineLoop(g, np))
  {
    ghost var h := FirstWords(g);
    m := m0;
    for i := 0 to np
      invariant h.PagesDone(m, i, np, |g.lines|)
      invariant i == np ==> h.LinkedTo(m, np - 1, 0)
    {
      var m1 := ChainLines(g, blk, m, i, if i < np - 1 then i + 1 else 0);
      h.PageJoins(m, m1, i, np, |g.lines|);
      m := m1;
    }
    assert Points(m, h.At(np - 1, |g.lines| - 1, 0), h.At(0, 0, 0));
    h.RingFromLinks(m, np, |g.lines|);
  }

  // ---- line_test ------------------------------------------------------------------------

  // The shape of the shortened ring: the first n lines of every page.
  function Shortened(g: Shape, n: nat): Shape
    requires n <= |g.lines|
  {
    FirstWords(g).(lines := g.lines[..n])
  }

  // Nothing but line j of the first np pages differs.
  ghost predicate OnlyFirstWords(g: Shape, m: Memory, m': Memory, np: nat, j: nat)
    requires np <= |g.pages| && j < |g.lines|
  {
    forall a: int :: !IsFirstWord(g, a, np, j) ==> (a in m <==> a in m') && (a in m ==> m[a] == m'[a])
  }

  ghost predicate IsFirstWord(g: Shape, a: int, np: nat, j: nat)
    requires np <= |g.pages| && j < |g.lines|
  {
    exists i: nat | i < np :: a == g.At(i, j, 0)
  }

  // Line n - 1 of page i leads to page i'.
  predicate Jumps(g: Shape, m: Memory, n: nat, i: nat, i': nat)
    requires i < |g.pages| && i' < |g.pages| && 0 < n <= |g.lines|
  {
    Points(m, g.At(i, n - 1, 0), g.At(i', 0, 0))
  }

  /** Lines 587-596: makes line n - 1 of each page the last one that is visited. */
  method Shorten(g: Shape, blk: Block, m0: Memory, np: nat, n: nat) returns (m: Memory)
    requires Roomy(g, blk) && 0 < np <= |g.pages| && 0 < n <= |g.lines|
    ensures OnlyFirstWords(g, m0, m, np, n - 1)
    ensures forall i: nat, i': nat | i' == i + 1 < np :: Jumps(g, m, n, i, i')
    ensures Jumps(g, m, n, np - 1, 0)
  {
    m := m0;
    for i := 0 to np - 1
      invariant OnlyFirstWords(g, m0, m, i, n - 1)
      invariant forall k: nat, k': nat | k < i && k' == k + 1 :: Jumps(g, m, n, k, k')
    {
      m := StoreJump(g, blk, m0, m, i, i + 1, n);
    }
    m := StoreJump(g, blk, m0, m, np - 1, 0, n);
  }

  method StoreJump(g: Shape, blk: Block, ghost m0: Memory, m1: Memory, i: nat, i': nat, n: nat)
    returns (m: Memory)
    requires Roomy(g, blk) && i < |g.pages| && i' < |g.pages| && 0 < n <= |g.lines|
    requires OnlyFirstWords(g, m0, m1, i, n - 1)
    requires forall k: nat, k': nat | k < i && k' == k + 1 :: Jumps(g, m1, n, k, k')
    ensures OnlyFirstWords(g, m0, m, i + 1, n - 1)
    ensures forall k: nat, k': nat | k < i && k' == k + 1 :: Jumps(g, m, n, k, k')
    ensures Jumps(g, m, n, i, i')
  {
    m := PointFirst(g, blk, m1, i, n - 1, i', 0);
    OnlyOneMore(g, m0, m1, m, i, n);
    forall k: nat, k': nat | k < i && k' == k + 1
      ensures Jumps(g, m, n, k, k')
    {
      KeepsJump(g, blk, m1, m, i, n, k, k');
    }
  }

  lemma OnlyOneMore(g: Shape, m0: Memory, m1: Memory, m: Memory, i: nat, n: nat)
    requires i < |g.pages| && 0 < n <= |g.lines| && OnlyFirstWords(g, m0, m1, i, n - 1)
    requires g.At(i, n - 1, 0) in m && m == m1[g.At(i, n - 1, 0) := m[g.At(i, n - 1, 0)]]
    ensures OnlyFirstWords(g, m0, m, i + 1, n - 1)
  {
    forall b: int | !IsFirstWord(g, b, i + 1, n - 1)
      ensures (b in m0 <==> b in m) && (b in m0 ==> m0[b] == m[b])
    {
      assert !IsFirstWord(g, b, i, n - 1);
      assert b != g.At(i, n - 1, 0);
    }
  }

  lemma KeepsJump(g: Shape, blk: Block, m1: Memory, m: Memory, i: nat, n: nat, k: nat, k': nat)
    requires Roomy(g, blk) && k < i < |g.pages| && k' < |g.pages| && 0 < n <= |g.lines|
    requires WORD <= g.line && Jumps(g, m1, n, k, k') && SameOutside(m1, m, g.At(i, n - 1, 0), g.At(i, n - 1, 0) + g.line)
    ensures Jumps(g, m, n, k, k')
  {
    assert FirstWords(g).Valid();
  }

  /** Lines 620-636: points line n - 1 of each page at line n again. */
  method Restore(g: Shape, blk: Block, m0: Memory, m1: Memory, np: nat, n: nat) returns (m: Memory)
    requires Roomy(g, blk) && 0 < np <= |g.pages| && 0 < n < |g.lines|
    requires forall i: nat | i < np :: FirstWords(g).LinkedInPage(m0, i, |g.lines|)
    requires OnlyFirstWords(g, m0, m1, np, n - 1)
    ensures m == m0
  {
    m := m1;
    for i := 0 to np
      invariant OnlyFirstWords(g, m0, m, np, n - 1)
      invariant forall k: nat | k < i :: Restored(g, m0, m, k, n)
    {
      LinkAt(g, m0, i, n);
      var m2 := PointFirst(g, blk, m, i, n - 1, i, n);
      assert IsFirstWord(g, g.At(i, n - 1, 0), np, n - 1);
      forall k: nat | k < i + 1
        ensures Restored(g, m0, m2, k, n)
      {
        assert k < i ==> Restored(g, m0, m, k, n);
      }
      m := m2;
    }
    forall a: int
      ensures (a in m0 <==> a in m) && (a in m0 ==> m0[a] == m[a])
    {
      if IsFirstWord(g, a, np, n - 1) {
        var i: nat :| i < np && a == g.At(i, n - 1, 0);
        assert Restored(g, m0, m, i, n);
      }
    }
  }

  // The pointer in line n - 1 of page i is what it was.
  ghost predicate Restored(g: Shape, m0: Memory, m: Memory, i: nat, n: nat)
    requires i < |g.pages| && 0 < n <= |g.lines|
  {
    var a := g.At(i, n - 1, 0);
    a in m0 && a in m && m[a] == m0[a]
  }

  lemma LinkAt(g: Shape, m: Memory, i: nat, n: nat)
    requires i < |g.pages| && 0 < n < |g.lines| && FirstWords(g).LinkedInPage(m, i, |g.lines|)
    ensures Points(m, g.At(i, n - 1, 0), g.At(i, n, 0))
  {
    var h := FirstWords(g);
    assert 0 in h.words;
    assert Points(m, h.At(i, n - 1, 0), h.At(i, n, 0));
  }

  lemma ShortenedRing(g: Shape, blk: Block, m0: Memory, m: Memory, np: nat, n: nat)
    requires Roomy(g, blk) && 0 < np <= |g.pages| && 0 < n <= |g.lines|
    requires forall i: nat | i < np :: FirstWords(g).LinkedInPage(m0, i, |g.lines|)
    requires OnlyFirstWords(g, m0, m, np, n - 1)
    requires forall i: nat, i': nat | i' == i + 1 < np :: Jumps(g, m, n, i, i')
    requires Jumps(g, m, n, np - 1, 0)
    ensures IsRing(m, Shortened(g, n).Ring(np, n))
  {
    var s := Shortened(g, n);
    ShortenedLinks(g, m0, m, np, n);
    ShortenedJumps(g, m, np, n);
    s.RingFromLinks(m, np, n);
  }

  lemma ShortenedLinks(g: Shape, m0: Memory, m: Memory, np: nat, n: nat)
    requires FirstWords(g).Valid() && 0 < np <= |g.pages| && 0 < n <= |g.lines|
    requires forall i: nat | i < np :: FirstWords(g).LinkedInPage(m0, i, |g.lines|)
    requires OnlyFirstWords(g, m0, m, np, n - 1)
    ensures forall i: nat | i < np :: Shortened(g, n).LinkedInPage(m, i, n)
  {
    forall i: nat | i < np
      ensures Shortened(g, n).LinkedInPage(m, i, n)
    {
      LinksKept(g, m0, m, i, np, n);
    }
  }

  lemma ShortenedJumps(g: Shape, m: Memory, np: nat, n: nat)
    requires 0 < np <= |g.pages| && 0 < n <= |g.lines|
    requires forall i: nat, i': nat | i' == i + 1 < np :: Jumps(g, m, n, i, i')
    requires Jumps(g, m, n, np - 1, 0)
    ensures Shortened(g, n).LinkedAcross(m, np, n) && Shortened(g, n).Wrapped(m, np, n)
  {
    var s := Shortened(g, n);
    forall i: nat, i': nat | i' == i + 1 < np
      ensures s.LinkedTo(m, i, i')
    {
      assert Jumps(g, m, n, i, i');
    }
    assert Points(m, s.At(np - 1, n - 1, 0), s.At(0, 0, 0));
  }

  lemma LinksKept(g: Shape, m0: Memory, m: Memory, i: nat, np: nat, n: nat)
    requires FirstWords(g).Valid() && i < np <= |g.pages| && 0 < n <= |g.lines|
    requires FirstWords(g).LinkedInPage(m0, i, |g.lines|) && OnlyFirstWords(g, m0, m, np, n - 1)
    ensures Shortened(g, n).LinkedInPage(m, i, n)
  {
    var h, s := FirstWords(g), Shortened(g, n);
    forall j: nat, j': nat, b | j' == j + 1 < n && b in s.words
      ensures Points(m, s.At(i, j, b), s.At(i, j', b))
    {
      assert Points(m0, h.At(i, j, 0), h.At(i, j', 0));
      NotFirstWord(g, i, j, np, n);
    }
  }

  lemma NotFirstWord(g: Shape, i: nat, j: nat, np: nat, n: nat)
    requires FirstWords(g).Valid() && i < np <= |g.pages| && j + 1 < n <= |g.lines|
    ensures !IsFirstWord(g, g.At(i, j, 0), np, n - 1)
  {
    var h := FirstWords(g);
    assert h.words[0] == 0;
  }

  // The ring of the trial size, where there are fewer lines or as many.
  method Wire(g: Shape, blk: Block, m0: Memory, np: nat, nlines: nat) returns (m: Memory)
    requires Roomy(g, blk) && 0 < np <= |g.pages| && FirstWords(g).Linked(m0, np, |g.lines|)
    requires 0 < nlines <= |g.lines| && forall i: nat | i < np :: FirstWords(g).LinkedInPage(m0, i, |g.lines|)
    ensures IsRing(m, Shortened(g, nlines).Ring(np, nlines))
    ensures if nlines < |g.lines| then OnlyFirstWords(g, m0, m, np, nlines - 1) else m == m0
  {
    m := m0;
    if nlines < |g.lines| {
      m := Shorten(g, blk, m, np, nlines);
      ShortenedRing(g, blk, m0, m, np, nlines);
    } else {
      FirstWords(g).RingFromLinks(m0, np, |g.lines|);
      assert Shortened(g, nlines) == FirstWords(g);
    }
  }

  lemma AllLinesLinked(h: Shape, m: Memory, np: nat)
    requires h.lines != [] && 0 < np <= |h.pages| && h.Linked(m, np, |h.lines|)
    ensures forall i: nat | i < np :: h.LinkedInPage(m, i, |h.lines|)
  {
    forall i: nat | i < np
      ensures h.LinkedInPage(m, i, |h.lines|)
    {
      assert h.LinkedInPage(m, i, h.LinesOn(i, np, |h.lines|));
    }
  }

  // Walking the ring from the first slot.
  method WalkRing(g: Shape, m: Memory, np: nat, n: nat, steps: nat) returns (walked: int)
    requires 0 < np <= |g.pages| && 0 < n <= |g.lines|
    requires IsRing(m, Shortened(g, n).Ring(np, n))
    ensures var ring := Shortened(g, n).Ring(np, n); walked == ring[steps % |ring|]
  {
    FirstSlot(g, m, np, n);
    var first := g.base + g.pages[0] + g.lines[0];
    assert first == g.At(0, 0, 0);
    walked := Chase(m, first, steps, Shortened(g, n).Ring(np, n), 0);
  }

  /** line_test, up to the timing: walks the shortened ring, then restores the full one exactly.
      line is the trial size; wired is memory while the ring is short, and walked is where the walk ends. */
  method LineTest(g: Shape, blk: Block, m0: Memory, np: nat, line: nat, steps: nat)
    returns (m: Memory, walked: int, ghost wired: Memory)
    requires Roomy(g, blk) && 0 < np <= |g.pages| && FirstWords(g).Linked(m0, np, |g.lines|)
    requires 0 < line && 0 < Quot(g.pagesize, line) <= |g.lines|
    ensures var ring := Shortened(g, Quot(g.pagesize, line)).Ring(np, Quot(g.pagesize, line));
      && IsRing(wired, ring) && walked == ring[steps % |ring|]
    ensures m == m0
  {
    QuotIsDivision(g.pagesize, line);
    var nlines: nat := g.pagesize / line;
    AllLinesLinked(FirstWords(g), m0, np);
    m := Wire(g, blk, m0, np, nlines);
    wired := m;
    walked := WalkRing(g, m, np, nlines, steps);
    if nlines < |g.lines| {
      m := Restore(g, blk, m0, m, np, nlines);
    }
  }

  lemma FirstSlot(g: Shape, m: Memory, np: nat, n: nat)
    requires 0 < np <= |g.pages| && 0 < n <= |g.lines|
    requires IsRing(m, Shortened(g, n).Ring(np, n))
    ensures Shortened(g, n).Ring(np, n)[0] == g.At(0, 0, 0)
  {
    var s := Shortened(g, n);
    s.RingAt(np, n, 0, 0, 0);
  }

  /** The shortened ring is the ring line_initialize would build for the trial line size: the first
      lines of the table for the fine size are, in the same order, the table for the coarse size. */
  lemma ShortenedIsCoarse(g: Shape, fine: nat, coarse: nat, line: nat)
    requires IsPow2(fine) && IsPow2(coarse) && coarse <= fine && g.lines == Order(fine, g.line)
    requires Times(fine, g.line) == g.pagesize == Times(coarse, line)
    ensures Shortened(g, coarse).lines == Order(coarse, line)
  {
    var k: nat :| fine == Pow2(k);
    var m: nat :| coarse == Pow2(m);
    if m > k {
      Pow2Monotone(k + 1, m);
    }
    OrderPrefix(k, m, g.line);
    CoarseLine(k, m, g.line, line);
  }

  lemma Cancel(p: nat, x: nat, y: nat)
    requires p > 0 && p * x == p * y
    ensures x == y
  {
    if x < y {
      MulMonotone(p, x + 1, y);
    } else if x > y {
      MulMonotone(p, y + 1, x);
    }
  }

  lemma CoarseLine(k: nat, m: nat, fineline: nat, line: nat)
    requires m <= k && Times(Pow2(k), fineline) == Times(Pow2(m), line)
    ensures Pow2(k - m) * fineline == line
  {
    Pow2Add(m, k - m);
    assert m + (k - m) == k;
    TimesIsProduct(Pow2(k), fineline);
    TimesIsProduct(Pow2(m), line);
    MulAssoc(Pow2(m), Pow2(k - m), fineline);
    Cancel(Pow2(m), Pow2(k - m) * fineline, line);
  }

  /** line_initialize. */
  method LineInitialize(state: MemState, iterations: nat, block: nat, rnd: nat -> nat)
    requires Sane(state.line, state.pagesize) && 0 < state.len <= state.maxlen
    modifies state
    ensures iterations > 0 ==> unchanged(state)
    ensures iterations == 0 ==> state.initialized == (block != 0)
    ensures iterations == 0 && block != 0 ==>
      && LineBuilt(state.Geometry(), state.Malloced(), state.cells, state.npages)
      && state.lines == Order(state.nlines, state.line) && state.p == map[0 := FirstSlotOf(state.Geometry())]
  {
    if iterations > 0 {
      return;
    }
    state.BaseInitialize(block, rnd);
    if !state.initialized {
      return;
    }
    ThreadLines(state);
  }

  // Where the chase starts.
  function FirstSlotOf(g: Shape): int {
    if g.pages != [] && g.lines != [] then g.base + g.pages[0] + g.lines[0] else 0
  }

  // What line_initialize builds.
  ghost predicate LineBuilt(g: Shape, blk: Block, m: Memory, np: nat) {
    && 0 < np <= |g.pages| && g.lines != [] && Roomy(g, blk)
    && FirstWords(g).Linked(m, np, |g.lines|)
    && IsRing(m, LineLoop(g, np))
  }

  /** Lines 370-391, after base_initialize. */
  method ThreadLines(state: MemState)
    requires state.HasSizes() && state.Geometry().PagesIn(state.Malloced()) && state.initialized
    modifies state
    ensures LineBuilt(state.Geometry(), state.Malloced(), state.cells, state.npages)
    ensures state.lines == Order(state.nlines, state.line) && state.initialized
    ensures state.p == map[0 := FirstSlotOf(state.Geometry())]
  {
    LinesRoomy(state.Geometry(), state.Malloced(), state.nlines, state.nwords);
    var l := WordsInitialize(state.nlines, state.line);
    var g := state.Geometry().(lines := l[..]);
    var m := LinkLines(g, state.Malloced(), state.cells, state.npages);
    state.lines, state.width := g.lines, 1;
    state.cells, state.p := m, map[0 := FirstSlotOf(g)];
    assert state.Geometry() == g;
  }

  lemma LinesRoomy(g: Shape, blk: Block, nlines: nat, nwords: nat)
    requires Split(g.line, g.pagesize, nlines, nwords) && g.PagesIn(blk)
    ensures Roomy(g.(lines := Order(nlines, g.line)), blk) && Order(nlines, g.line) != []
  {
    OrdersCover(g.base, g.line, g.pagesize, nlines, nwords);
    var h := Shape(g.base, [], Order(nlines, g.line), Order(nwords, WORD), g.pagesize, g.line);
    assert h.words[0] in h.words;
  }
}
