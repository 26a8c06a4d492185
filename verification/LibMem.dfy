/** struct mem_state, base_initialize and mem_initialize (lib_mem.c). */
module LibMem {
  import opened Arith
  import opened Bits
  import opened Rings
  import opened Words
  import opened Permutation
  import opened Layout
  import opened MemRing

  // ---- Sizes --------------------------------------------------------------------

  // Lines are whole words, pages are whole lines, and the page size is a power of two.
  ghost predicate Sane(line: nat, pagesize: nat) {
    0 < line && line % WORD == 0 && 0 < pagesize && pagesize % line == 0 && IsPow2(pagesize)
  }

  // A page is nlines lines of nwords words each.
  ghost predicate Split(line: nat, pagesize: nat, nlines: nat, nwords: nat) {
    nwords * WORD == line && Times(nlines, line) == pagesize && IsPow2(nlines) && IsPow2(nwords)
  }

  // n is a / b, rounded up
  ghost predicate IsCeil(n: nat, a: nat, b: nat) {
    Times(n, b) - b < a <= Times(n, b)
  }

  lemma SaneSplits(line: nat, pagesize: nat)
    requires Sane(line, pagesize)
    ensures pagesize / line >= 0 && line / WORD >= 0
    ensures Split(line, pagesize, pagesize / line, line / WORD)
  {
    var nlines, nwords := pagesize / line, line / WORD;
    DivNonneg(pagesize, line);
    assert pagesize == line * nlines;
    assert line == WORD * nwords;
    var n: nat :| pagesize == Pow2(n);
    DivisorOfPow2(nlines, line, n);
    TimesIsProduct(nlines, line);
    assert nwords * (WORD * nlines) == pagesize;
    DivisorOfPow2(nwords, WORD * nlines, n);
  }

  lemma CeilOfDivision(a: nat, b: nat)
    requires b > 0
    ensures (a + b - 1) / b >= 0 && IsCeil((a + b - 1) / b, a, b)
  {
    DivNonneg(a + b - 1, b);
    TimesIsProduct((a + b - 1) / b, b);
    assert a + b - 1 == b * ((a + b - 1) / b) + (a + b - 1) % b;
  }

  lemma CeilMonotone(n: nat, a: nat, n': nat, a': nat, b: nat)
    requires IsCeil(n, a, b) && IsCeil(n', a', b) && 0 < a <= a'
    ensures 0 < n <= n'
  {
    TimesIsProduct(n, b);
    TimesIsProduct(n', b);
    if n > n' {
      MulMonotone(b, n', n - 1);
    }
  }

  // The sizes base_initialize computes.
  ghost predicate Sized(line: nat, pagesize: nat, len: nat, maxlen: nat,
      nwords: nat, nlines: nat, npages: nat, nmpages: nat)
  {
    && Split(line, pagesize, nlines, nwords)
    && IsCeil(npages, len, pagesize) && IsCeil(nmpages, maxlen, pagesize) && 0 < npages <= nmpages
  }

  method Sizes(line: nat, pagesize: nat, len: nat, maxlen: nat)
    returns (nwords: nat, nlines: nat, npages: nat, nmpages: nat)
    requires Sane(line, pagesize) && 0 < len <= maxlen
    ensures Sized(line, pagesize, len, maxlen, nwords, nlines, npages, nmpages)
  {
    SaneSplits(line, pagesize);
    CeilOfDivision(len, pagesize);
    CeilOfDivision(maxlen, pagesize);
    nwords, nlines := line / WORD, pagesize / line;
    npages := (len + pagesize - 1) / pagesize;
    nmpages := (maxlen + pagesize - 1) / pagesize;
    CeilMonotone(npages, len, nmpages, maxlen, pagesize);
  }

  lemma ModOfMultiple(x: int, d: int, e: int)
    requires d > 0 && e > 0 && x % d == 0 && d % e == 0
    ensures x % e == 0
  {
    var q, r := x / d, d / e;
    assert x == d * q && d == e * r;
    assert x == e * (r * q) + 0;
    DivUnique(x, e, r * q, 0);
  }

  lemma WordAligned(x: int, line: nat, pagesize: nat)
    requires Sane(line, pagesize) && x % pagesize == 0
    ensures x % WORD == 0
  {
    ModOfMultiple(pagesize, line, WORD);
    ModOfMultiple(x, pagesize, WORD);
  }

  // ---- Geometry --------------------------------------------------------------------

  // Rounds the pointer malloc returned up to a page.
  method PageAlign(addr: nat, line: nat, pagesize: nat) returns (base: nat)
    requires Sane(line, pagesize)
    ensures base % pagesize == 0 && base % WORD == 0 && addr <= base < addr + pagesize
  {
    base := addr;
    if addr % pagesize != 0 {
      base := base + (pagesize - addr % pagesize);
      ghost var q := addr / pagesize;
      assert addr == pagesize * q + addr % pagesize;
      assert base == pagesize * (q + 1) + 0;
      DivUnique(base, pagesize, q + 1, 0);
    }
    WordAligned(base, line, pagesize);
  }

  // After alignment the pages still lie in a block of maxlen + 2 * pagesize bytes.
  lemma PagesInBlock(pages: seq<int>, addr: nat, base: nat, line: nat, pagesize: nat, maxlen: nat)
    requires Sane(line, pagesize) && multiset(pages) == multiset(Multiples(|pages|, pagesize))
    requires IsCeil(|pages|, maxlen, pagesize) && addr <= base < addr + pagesize && base % WORD == 0
    requires pages != []
    ensures Shape(base, pages, [], [], pagesize, line).PagesIn(Block(addr, addr + maxlen + 2 * pagesize))
    ensures 0 in pages
  {
    PermutedMultiples(pages, |pages|, pagesize);
    TimesIsProduct(|pages|, pagesize);
    assert 0 * pagesize in pages;
    forall i | 0 <= i < |pages|
      ensures pages[i] % WORD == 0
    {
      WordAligned(pages[i], line, pagesize);
    }
  }

  // A line is covered by its words, a page by its lines.
  lemma OrderFacts(max: nat, scale: nat)
    requires IsPow2(max) && scale > 0
    ensures var s := Order(max, scale);
      && s != [] && s[0] == 0 && Distinct(s) && Spaced(s, scale)
      && (forall i :: 0 <= i < |s| ==> s[i] % scale == 0 && 0 <= s[i] <= max * scale - scale)
      && (forall q: nat :: q < max ==> q * scale in s)
  {
    var k: nat :| max == Pow2(k);
    OrderIsPermutation(k, scale);
    MultiplesAreSpaced(Order(max, scale), scale);
  }

  lemma WordsCover(line: nat, nwords: nat)
    requires nwords * WORD == line && IsPow2(nwords)
    ensures var g := Shape(0, [], [], Order(nwords, WORD), 0, line);
      && g.words != [] && g.words[0] == 0 && Spaced(g.words, WORD)
      && forall b :: b in g.words <==> g.IsWord(b)
  {
    OrderFacts(nwords, WORD);
    var g := Shape(0, [], [], Order(nwords, WORD), 0, line);
    forall b
      ensures b in g.words <==> g.IsWord(b)
    {
      if g.IsWord(b) {
        assert b / WORD * WORD in g.words;
      }
    }
  }

  // Lines are at multiples of the line size, and so of the word size.
  lemma LinesAligned(line: nat, nlines: nat, nwords: nat, lines: seq<int>)
    requires line == nwords * WORD && line > 0 && forall j :: 0 <= j < |lines| ==> lines[j] % line == 0
    ensures forall j :: 0 <= j < |lines| ==> lines[j] % WORD == 0
  {
    forall j | 0 <= j < |lines|
      ensures lines[j] % WORD == 0
    {
      ModOfMultiple(lines[j], line, WORD);
    }
  }

  // The offsets words_initialize yields for the lines of a page and the words of a line.
  lemma OrdersCover(base: int, line: nat, pagesize: nat, nlines: nat, nwords: nat)
    requires Split(line, pagesize, nlines, nwords)
    ensures var g := Shape(base, [], Order(nlines, line), Order(nwords, WORD), pagesize, line);
      g.LinesCover() && g.lines[0] == 0 && g.words[0] == 0
  {
    WordsCover(line, nwords);
    OrderFacts(nlines, line);
    TimesIsProduct(nlines, line);
    LinesAligned(line, nlines, nwords, Order(nlines, line));
    SameWords(base, pagesize, Order(nlines, line), Order(nwords, WORD), line);
  }

  // Which offsets are words depends on the line size only.
  lemma SameWords(base: int, pagesize: nat, lines: seq<int>, words: seq<int>, line: nat)
    ensures var g, h := Shape(base, [], lines, words, pagesize, line), Shape(0, [], [], words, 0, line);
      forall b :: g.IsWord(b) <==> h.IsWord(b)
  {
  }

  lemma {:induction false} TimesLess(n: nat, b: nat)
    requires n > 0 && b > 0
    ensures Times(n, b) == Times(n, b - 1) + n
  {
    if n > 1 {
      TimesLess(n - 1, b);
    }
  }

  // With two pages or more there are pointers left for the last one.
  lemma EnoughPointers(len: nat, line: nat, pagesize: nat, nlines: nat, nwords: nat, npages: nat)
    requires line > 0 && npages > 0 && Split(line, pagesize, nlines, nwords) && IsCeil(npages, len, pagesize)
    ensures nlines > 0
    ensures npages >= 2 ==> Times(npages - 1, nlines - 1) < Quot(len, line)
  {
    if npages >= 2 {
      TimesTimes(npages - 1, nlines, line);
      QuotAtLeast(len, line, Times(npages - 1, nlines));
      TimesLess(npages - 1, nlines);
    }
  }

  // There is a link or more from one start pointer to the next.
  lemma StepPositive(npointers: nat, width: nat)
    requires 0 < width && (npointers < 2 || width <= npointers)
    ensures npointers >= 2 ==> 0 < Quot(npointers, width)
  {
    if width <= npointers {
      QuotAtLeast(npointers, width, 1);
    }
  }

  // The lines of a page and the words of a line are in bit-reversed order.
  ghost predicate Ordered(g: Shape, nlines: nat, nwords: nat) {
    g.lines == Order(nlines, g.line) && g.words == Order(nwords, WORD)
  }

  /** struct mem_state, with the block malloc returned and what has been stored in it. */
  class MemState {
    var addr: int                // raw pointer returned by malloc
    var base: int                // page-aligned pointer into the block
    var cells: Memory            // the pointers stored in the block so far
    var p: map<nat, int>         // the start pointers set so far
    var initialized: bool
    var width: nat
    var len: nat
    var maxlen: nat
    var line: nat
    var pagesize: nat
    var nlines: nat
    var npages: nat
    var nwords: nat
    var pages: array<int>
    var lines: seq<int>
    var words: seq<int>

    constructor (width: nat, len: nat, maxlen: nat, line: nat, pagesize: nat)
      ensures Config() == (width, len, maxlen, line, pagesize)
    {
      this.width, this.len, this.maxlen, this.line, this.pagesize := width, len, maxlen, line, pagesize;
      addr, base, cells, p, initialized := 0, 0, map[], map[], false;
      nlines, npages, nwords := 0, 0, 0;
      lines, words := [], [];
      pages := new int[0];
    }

    // What the caller sets before calling a builder.
    function Config(): (nat, nat, nat, nat, nat)
      reads this
    {
      (width, len, maxlen, line, pagesize)
    }

    function Malloced(): Block
      reads this
    {
      Block(addr, addr + maxlen + 2 * pagesize)
    }

    // What base_initialize leaves behind: the sizes it computes, and the pages in the block.
    ghost predicate HasSizes()
      reads this
    {
      Sized(line, pagesize, len, maxlen, nwords, nlines, npages, pages.Length)
    }

    function Geometry(): Shape
      reads this, pages
    {
      Shape(base, pages[..], lines, words, pagesize, line)
    }

    ghost predicate Ready()
      reads this, pages
    {
      Geometry().Usable(Malloced()) && |lines| == nlines && |words| == nwords
    }

    /** base_initialize, when it is called with no iterations (else it does nothing); block is
        what malloc returns, 0 when it fails. */
    method BaseInitialize(block: nat, rnd: nat -> nat)
      requires Sane(line, pagesize) && 0 < len <= maxlen
      modifies this
      ensures Config() == old(Config()) && fresh(pages) && cells == map[] && p == map[]
      ensures initialized == (block != 0)
      ensures block != 0 ==>
        && HasSizes() && Geometry().PagesIn(Malloced()) && 0 in pages[..]
        && pages.Length > 0 && DrawnBy(pages[..], DrawsOf(pages.Length, rnd), pages.Length, pagesize)
        && multiset(pages[..]) == multiset(Multiples(pages.Length, pagesize))
        && addr == block && block <= base < block + pagesize && base % pagesize == 0
    {
      InitSizes(rnd);
      addr, cells, p, initialized := block, map[], map[], false;
      if block != 0 {
        Align(block);
      }
    }

    // Lines 142-160: the sizes, and the pages in random order.
    method InitSizes(rnd: nat -> nat)
      requires Sane(line, pagesize) && 0 < len <= maxlen
      modifies `nwords, `nlines, `npages, `lines, `words, `pages
      ensures HasSizes() && fresh(pages) && lines == [] && words == []
      ensures multiset(pages[..]) == multiset(Multiples(pages.Length, pagesize))
      ensures pages.Length > 0 && IsCeil(pages.Length, maxlen, pagesize)
      ensures DrawnBy(pages[..], DrawsOf(pages.Length, rnd), pages.Length, pagesize)
    {
      var nw, nl, np, nmpages := Sizes(line, pagesize, len, maxlen);
      pages := Permute(nmpages, pagesize, rnd);
      nwords, nlines, npages := nw, nl, np;
      lines, words := [], [];
    }

    // Lines 165-169: the pages are in the block, at its first page boundary.
    method Align(block: nat)
      requires Sane(line, pagesize) && block == addr && HasSizes() && lines == [] && words == []
      requires multiset(pages[..]) == multiset(Multiples(pages.Length, pagesize))
      requires pages.Length > 0 && IsCeil(pages.Length, maxlen, pagesize)
      modifies `base, `initialized
      ensures initialized && Geometry().PagesIn(Malloced()) && 0 in pages[..]
      ensures block <= base < block + pagesize && base % pagesize == 0
    {
      base := PageAlign(block, line, pagesize);
      PagesInBlock(pages[..], block, base, line, pagesize, maxlen);
      initialized := true;
    }

    // The calls of words_initialize.
    method MakeOrders()
      requires HasSizes() && Geometry().PagesIn(Malloced())
      modifies `lines, `words
      ensures HasSizes() && Ready() && Ordered(Geometry(), nlines, nwords)
    {
      OrdersCover(base, line, pagesize, nlines, nwords);
      var w := WordsInitialize(nwords, WORD);
      words := w[..];
      var l := WordsInitialize(nlines, line);
      lines := l[..];
      Geometry().CoverIsUsable(Malloced());
    }

    // The number of pointers mem_initialize means to place in one lap.
    ghost function Pointers(): nat
      requires line > 0
      reads this
    {
      Quot(len, line)
    }

    // What mem_initialize builds.
    ghost predicate Built()
      reads this, pages
    {
      && Ready() && line > 0 && width > 0
      && Ordered(Geometry(), nlines, nwords)
      && Threaded(Geometry(), cells, p, npages, Pointers(), width)
    }

    // Lines 311-336, on the fields of the state.
    method Thread()
      requires HasSizes() && Ready() && 0 < line && 0 < width
      requires Ordered(Geometry(), nlines, nwords)
      requires Pointers() < 2 || width <= Pointers()
      modifies `cells, `p, `initialized
      ensures HasSizes() && Built() && initialized
    {
      EnoughPointers(len, line, pagesize, nlines, nwords, npages);
      QuotIsDivision(len, line);
      StepPositive(Quot(len, line), width);
      var npointers := len / line;
      var m, starts := Link(Geometry(), Malloced(), cells, npages, npointers, width);
      cells, p, initialized := m, starts, true;
    }

    /** mem_initialize.  (Line 340, the walk that warms the cache, is not part of this model: it stores
        nothing, but reads start pointers that lines 319-323 do not always set.)  The source divides by npointers / width as
        soon as there is a link to place. */
    method MemInitialize(iterations: nat, block: nat, rnd: nat -> nat)
      requires Sane(line, pagesize) && 0 < len <= maxlen && 0 < width
      requires Pointers() < 2 || width <= Pointers()
      modifies this
      ensures iterations > 0 ==> unchanged(this)
      ensures iterations == 0 ==> initialized == (block != 0) && Config() == old(Config()) && fresh(pages)
      ensures iterations == 0 && block != 0 ==> HasSizes() && Built() && 0 in pages[..] && addr == block
    {
      if iterations > 0 {
        return;
      }
      BaseInitialize(block, rnd);
      if !initialized {
        return;
      }
      Build();
    }

    // Lines 298-336.
    method Build()
      requires HasSizes() && Geometry().PagesIn(Malloced()) && 0 < width && Sane(line, pagesize)
      requires Pointers() < 2 || width <= Pointers()
      modifies `lines, `words, `cells, `p, `initialized
      ensures HasSizes() && Built() && initialized
    {
      MakeOrders();
      Thread();
    }
  }
}
