/** Where the slots of a pointer ring lie, and the rings that run page by page.

    A slot is addressed as the source does: base + pages[i] + lines[j] + b, with b the
    offset of a word in its line. */
module Layout {
  import opened Arith
  import opened Rings

  const WORD: int := 8  // sizeof(char*)

  // The block malloc returned: addresses lo up to hi.
  datatype Block = Block(lo: int, hi: int)
  {
    predicate Holds(a: int) {
      lo <= a <= hi - WORD && a % WORD == 0
    }

    /** Every store goes through here: it must be aligned and lie inside the allocated block. */
    function Store(m: Memory, a: int, v: int): Memory
      requires Holds(a)
    {
      m[a := v]
    }
  }

  lemma AlignedSum(a: int, b: int, c: int)
    requires a % WORD == 0 && b % WORD == 0 && c % WORD == 0
    ensures (a + b + c) % WORD == 0
  {
  }

  // Between an aligned number and the next there is no other.
  lemma NextAligned(o: int, e: int)
    requires o % WORD == 0 && e % WORD == 0 && o < e + WORD
    ensures o <= e
  {
  }

  datatype Shape = Shape(base: int, pages: seq<int>, lines: seq<int>, words: seq<int>, pagesize: nat, line: nat)
  {
    // Lines lie in a page and do not overlap; words likewise in a line.
    ghost predicate Valid() {
      && pages != [] && lines != [] && words != []
      && Spaced(pages, pagesize)
      && Spaced(lines, line) && (forall j :: 0 <= j < |lines| ==> 0 <= lines[j] <= pagesize - line)
      && Spaced(words, WORD) && (forall k :: 0 <= k < |words| ==> 0 <= words[k] <= line - WORD)
    }

    // The offset of a word in a line.
    ghost predicate IsWord(b: int) {
      0 <= b <= line - WORD && b % WORD == 0
    }

    // Lines lie in a page and do not overlap, and words is some order of all the words of a line.
    ghost predicate LinesCover() {
      && lines != [] && words != [] && line % WORD == 0
      && Spaced(lines, line)
      && (forall j :: 0 <= j < |lines| ==> 0 <= lines[j] <= pagesize - line && lines[j] % WORD == 0)
      && Spaced(words, WORD) && (forall b :: b in words <==> IsWord(b))
    }

    // The pages are aligned, do not overlap, and lie in the block.
    ghost predicate PagesIn(blk: Block) {
      && pages != [] && Spaced(pages, pagesize) && base % WORD == 0
      && (forall i :: 0 <= i < |pages| ==>
        pages[i] % WORD == 0 && blk.lo <= base + pages[i] <= blk.hi - pagesize)
    }

    // What the loops that build a ring rely on.
    ghost predicate Usable(blk: Block) {
      Valid() && LinesCover() && PagesIn(blk)
    }

    lemma CoverIsUsable(blk: Block)
      requires LinesCover() && PagesIn(blk)
      ensures Usable(blk)
    {
      assert forall k :: 0 <= k < |words| ==> words[k] in words;
    }

    function At(i: nat, j: nat, b: int): int
      requires i < |pages| && j < |lines|
    {
      base + pages[i] + lines[j] + b
    }

    // Different coordinates, different addresses.
    lemma Injective(i: nat, j: nat, b: int, i': nat, j': nat, b': int)
      requires Valid()
      requires i < |pages| && j < |lines| && 0 <= b <= line - WORD
      requires i' < |pages| && j' < |lines| && 0 <= b' <= line - WORD
      ensures At(i, j, b) == At(i', j', b') ==> i == i' && j == j' && b == b'
    {
    }

    // a is a pointer-sized word of page i.
    ghost predicate InPage(i: nat, a: int)
      requires i < |pages|
    {
      var o := a - base - pages[i];
      0 <= o < pagesize && o % WORD == 0
    }

    // ---- Laps --------------------------------------------------------------------
    // np pages are used; each has all its lines on the ring, except the last page,
    // which has only its first `last` lines.

    predicate Fits(np: nat, last: nat) {
      0 < np <= |pages| && 0 < last <= |lines|
    }

    function LinesOn(i: nat, np: nat, last: nat): nat {
      if i == np - 1 then last else |lines|
    }

    // The words at offset b of the lines of page i.
    function LineRun(i: nat, np: nat, last: nat, b: int): seq<int> {
      if Fits(np, last) && i < np then seq(LinesOn(i, np, last), (j: nat) requires j < |lines| => At(i, j, b)) else []
    }

    function PageRow(np: nat, last: nat, b: int): nat -> seq<int> {
      (i: nat) => LineRun(i, np, last, b)
    }

    // (np - 1) * |lines| + last, the number of lines visited in a lap
    function LapLen(np: nat, last: nat): nat
      requires np > 0
    {
      Times(np - 1, |lines|) + last
    }

    // One lap: the same word of every line, page by page.
    function Lap(np: nat, last: nat, b: int): seq<int> {
      Rows(np, PageRow(np, last, b))
    }

    function LapRow(np: nat, last: nat): nat -> seq<int> {
      (k: nat) => if k < |words| then Lap(np, last, words[k]) else []
    }

    /** The order in which the chain visits memory: lap by lap, each lap at the next word of
        the line; in a lap page by page, in a page line by line. */
    function Ring(np: nat, last: nat): seq<int> {
      Rows(|words|, LapRow(np, last))
    }

    // ---- The links that make it a ring -----------------------------------------------

    // Every word of a line points at the same word of the next line of its page.
    ghost predicate LinkedInPage(m: Memory, i: nat, n: nat)
      requires i < |pages| && n <= |lines|
    {
      forall j: nat, j': nat, b {:trigger At(i, j, b), At(i, j', b)} | j' == j + 1 < n && b in words ::
        Points(m, At(i, j, b), At(i, j', b))
    }

    ghost predicate LinkedTo(m: Memory, i: nat, i': nat)
      requires i < |pages| && i' < |pages|
    {
      lines != [] && forall b | b in words :: Points(m, At(i, |lines| - 1, b), At(i', 0, b))
    }

    ghost predicate LinkedAcross(m: Memory, np: nat, last: nat)
      requires Fits(np, last)
    {
      forall i: nat, i': nat | i' == i + 1 < np :: LinkedTo(m, i, i')
    }

    // The word after word k of a line; after the last one comes the first.
    function NextWord(k: nat): int
      requires k < |words|
    {
      words[if k == |words| - 1 then 0 else k + 1]
    }

    // The last line used points back to the first one, at the next word.
    ghost predicate Wrapped(m: Memory, np: nat, last: nat)
      requires Fits(np, last)
    {
      forall k: nat | k < |words| ::
        Points(m, At(np - 1, last - 1, words[k]), At(0, 0, NextWord(k)))
    }

    ghost predicate Linked(m: Memory, np: nat, last: nat)
      requires Fits(np, last)
    {
      && (forall i: nat | i < np :: LinkedInPage(m, i, LinesOn(i, np, last)))
      && LinkedAcross(m, np, last)
      && Wrapped(m, np, last)
    }

    lemma LapMember(np: nat, last: nat, b: int, a: int)
      requires Fits(np, last)
      ensures a in Lap(np, last, b) <==>
        exists i: nat, j: nat :: i < np && j < LinesOn(i, np, last) && a == At(i, j, b)
    {
      RowsMember(np, PageRow(np, last, b), a);
      if a in Lap(np, last, b) {
        var i: nat :| i < np && a in PageRow(np, last, b)(i);
        var j :| 0 <= j < |LineRun(i, np, last, b)| && LineRun(i, np, last, b)[j] == a;
      }
      if i: nat, j: nat :| i < np && j < LinesOn(i, np, last) && a == At(i, j, b) {
        assert LineRun(i, np, last, b)[j] == a;
        assert a in PageRow(np, last, b)(i);
      }
    }

    lemma LineRunPath(m: Memory, i: nat, np: nat, last: nat, b: int)
      requires Valid() && Fits(np, last) && i < np && b in words
      requires LinkedInPage(m, i, LinesOn(i, np, last))
      ensures var s := LineRun(i, np, last, b);
        && s != [] && IsPath(m, s) && Distinct(s)
        && s[0] == At(i, 0, b) && s[|s| - 1] == At(i, LinesOn(i, np, last) - 1, b)
    {
    }

    lemma LineRunsDisjoint(i: nat, j: nat, np: nat, last: nat, b: int)
      requires Valid() && Fits(np, last) && i < j < np && b in words
      ensures Apart(LineRun(i, np, last, b), LineRun(j, np, last, b))
    {
    }

    lemma LineRunsJoined(m: Memory, i: nat, np: nat, last: nat, b: int)
      requires Valid() && Fits(np, last) && i + 1 < np && b in words && LinkedAcross(m, np, last)
      ensures Joined(m, LineRun(i, np, last, b), LineRun(i + 1, np, last, b))
    {
      assert LinkedTo(m, i, i + 1);
    }

    // The rows of a lap: paths, apart from each other, each leading to the next.
    lemma RunsArePaths(m: Memory, np: nat, last: nat, b: int)
      requires Valid() && Fits(np, last) && Linked(m, np, last) && b in words
      ensures forall i: nat | i < np ::
                var s := PageRow(np, last, b)(i);
                && s != [] && IsPath(m, s) && Distinct(s)
                && s[0] == At(i, 0, b) && s[|s| - 1] == At(i, LinesOn(i, np, last) - 1, b)
    {
      forall i: nat | i < np
        ensures var s := PageRow(np, last, b)(i);
                && s != [] && IsPath(m, s) && Distinct(s)
                && s[0] == At(i, 0, b) && s[|s| - 1] == At(i, LinesOn(i, np, last) - 1, b)
      {
        LineRunPath(m, i, np, last, b);
      }
    }

    lemma RunsApart(np: nat, last: nat, b: int)
      requires Valid() && Fits(np, last) && b in words
      ensures forall i: nat, j: nat | i < j < np :: Apart(PageRow(np, last, b)(i), PageRow(np, last, b)(j))
    {
      forall i: nat, j: nat | i < j < np
        ensures Apart(PageRow(np, last, b)(i), PageRow(np, last, b)(j))
      {
        LineRunsDisjoint(i, j, np, last, b);
      }
    }

    lemma RunsJoined(m: Memory, np: nat, last: nat, b: int)
      requires Valid() && Fits(np, last) && LinkedAcross(m, np, last) && b in words
      ensures forall i: nat, j: nat | j == i + 1 < np :: Joined(m, PageRow(np, last, b)(i), PageRow(np, last, b)(j))
    {
      forall i: nat, j: nat | j == i + 1 < np
        ensures Joined(m, PageRow(np, last, b)(i), PageRow(np, last, b)(j))
      {
        LineRunsJoined(m, i, np, last, b);
      }
    }

    lemma LapPath(m: Memory, np: nat, last: nat, b: int)
      requires Valid() && Fits(np, last) && Linked(m, np, last) && b in words
      ensures var s := Lap(np, last, b);
        && s != [] && IsPath(m, s) && Distinct(s)
        && s[0] == At(0, 0, b) && s[|s| - 1] == At(np - 1, last - 1, b)
    {
      RunsArePaths(m, np, last, b);
      RunsApart(np, last, b);
      RunsJoined(m, np, last, b);
      RowsPath(m, np, PageRow(np, last, b));
      RowsDistinct(np, PageRow(np, last, b));
    }

    lemma LapsDisjoint(k: nat, k': nat, np: nat, last: nat)
      requires Valid() && Fits(np, last) && k < |words| && k' < |words| && k != k'
      ensures Apart(Lap(np, last, words[k]), Lap(np, last, words[k']))
    {
      forall x | x in Lap(np, last, words[k])
        ensures x !in Lap(np, last, words[k'])
      {
        LapMember(np, last, words[k], x);
        LapMember(np, last, words[k'], x);
      }
    }

    /** The theorem behind every builder: if the links are in place, the chain is one single
        cycle through Ring(np, last). */
    lemma RingFromLinks(m: Memory, np: nat, last: nat)
      requires Valid() && Fits(np, last) && Linked(m, np, last)
      ensures IsRing(m, Ring(np, last))
      ensures Ring(np, last)[0] == At(0, 0, words[0])
    {
      var row := LapRow(np, last);
      forall k: nat | k < |words|
        ensures row(k) != [] && IsPath(m, row(k)) && Distinct(row(k))
      {
        LapPath(m, np, last, words[k]);
      }
      forall k: nat, k': nat | k < k' < |words|
        ensures Apart(row(k), row(k'))
      {
        LapsDisjoint(k, k', np, last);
      }
      forall k: nat, k': nat | k' == k + 1 < |words|
        ensures Joined(m, row(k), row(k'))
      {
        LapsJoined(m, np, last, k, k');
      }
      LapsJoined(m, np, last, |words| - 1, 0);
      LapPath(m, np, last, words[0]);
      RowsRing(m, |words|, row);
    }

    lemma LapsJoined(m: Memory, np: nat, last: nat, k: nat, k': nat)
      requires Valid() && Fits(np, last) && Linked(m, np, last) && k < |words|
      requires k' == if k == |words| - 1 then 0 else k + 1
      ensures Joined(m, LapRow(np, last)(k), LapRow(np, last)(k'))
    {
      LapPath(m, np, last, words[k]);
      LapPath(m, np, last, words[k']);
    }

    /** Exactly the intended slots are on the ring ... */
    lemma RingMember(np: nat, last: nat, a: int)
      requires Fits(np, last)
      ensures a in Ring(np, last) <==>
        exists i: nat, j: nat, b :: i < np && j < LinesOn(i, np, last) && b in words && a == At(i, j, b)
    {
      RowsMember(|words|, LapRow(np, last), a);
      if a in Ring(np, last) {
        var k: nat :| k < |words| && a in LapRow(np, last)(k);
        LapMember(np, last, words[k], a);
      }
      if i: nat, j: nat, b :| i < np && j < LinesOn(i, np, last) && b in words && a == At(i, j, b) {
        var k: nat :| k < |words| && words[k] == b;
        LapMember(np, last, b, a);
        assert a in LapRow(np, last)(k);
      }
    }

    lemma LapLength(np: nat, last: nat, b: int)
      requires Fits(np, last)
      ensures |Lap(np, last, b)| == LapLen(np, last)
    {
      var row := PageRow(np, last, b);
      RowsLength(np - 1, row, |lines|);
      assert |row(np - 1)| == last;
    }

    /** ... and so many of them. */
    lemma RingLength(np: nat, last: nat)
      requires Fits(np, last)
      ensures |Ring(np, last)| == Times(|words|, LapLen(np, last))
    {
      forall k: nat | k < |words|
        ensures |LapRow(np, last)(k)| == LapLen(np, last)
      {
        LapLength(np, last, words[k]);
      }
      RowsLength(|words|, LapRow(np, last), LapLen(np, last));
    }

    /** Lap by lap, page by page, line by line: the position of every slot. */
    lemma RingAt(np: nat, last: nat, k: nat, i: nat, j: nat)
      requires Fits(np, last) && k < |words| && i < np && j < LinesOn(i, np, last)
      ensures var n := Times(k, LapLen(np, last)) + (Times(i, |lines|) + j);
        n < |Ring(np, last)| && Ring(np, last)[n] == At(i, j, words[k])
    {
      RowsAt(np, PageRow(np, last, words[k]), |lines|, i, j);
      forall k': nat | k' < |words|
        ensures |LapRow(np, last)(k')| == LapLen(np, last)
      {
        LapLength(np, last, words[k']);
      }
      RowsAt(|words|, LapRow(np, last), LapLen(np, last), k, Times(i, |lines|) + j);
    }

    // ---- What a store leaves alone -----------------------------------------------------

    // a is a word of line j of page i.
    ghost predicate InLine(a: int, i: nat, j: nat)
      requires i < |pages| && j < |lines|
    {
      a - At(i, j, 0) in words
    }

    // Only words of line j of page i differ.
    ghost predicate OnlyLine(m: Memory, m': Memory, i: nat, j: nat)
      requires i < |pages| && j < |lines|
    {
      forall a: int :: !InLine(a, i, j) ==> (a in m <==> a in m') && (a in m ==> m[a] == m'[a])
    }

    lemma OnlyLineOutside(m: Memory, m': Memory, i: nat, j: nat)
      requires Valid() && i < |pages| && j < |lines| && OnlyLine(m, m', i, j)
      ensures SameOutside(m, m', At(i, j, 0), At(i, j, 0) + line)
    {
      forall a: int | !(At(i, j, 0) <= a < At(i, j, 0) + line)
        ensures (a in m <==> a in m') && (a in m ==> m[a] == m'[a])
      {
        assert !InLine(a, i, j);
      }
    }

    // Pages 0 .. n - 1 are linked, and each of them is linked to the page after it.
    ghost predicate PagesDone(m: Memory, n: nat, np: nat, last: nat)
      requires Fits(np, last) && n <= np
    {
      && (forall i: nat | i < n :: LinkedInPage(m, i, LinesOn(i, np, last)))
      && (forall i: nat, i': nat | i < n && i' == i + 1 < np :: LinkedTo(m, i, i'))
    }

    // Stores into one line keep the links that do not start there.
    lemma KeepsLines(m: Memory, m': Memory, i: nat, j: nat, i': nat, n: nat)
      requires Valid() && i < |pages| && j < |lines| && i' < |pages| && n <= |lines|
      requires SameOutside(m, m', At(i, j, 0), At(i, j, 0) + line)
      requires i' != i || n <= j + 1
      requires LinkedInPage(m, i', n)
      ensures LinkedInPage(m', i', n)
    {
    }

    // Stores into page i keep the pages before it; with its own links in place it joins them.
    lemma PageJoins(m: Memory, m': Memory, i: nat, np: nat, last: nat)
      requires Valid() && Fits(np, last) && i < np && PagesDone(m, i, np, last)
      requires SameOutside(m, m', base + pages[i], base + pages[i] + pagesize)
      requires LinkedInPage(m', i, LinesOn(i, np, last))
      requires i + 1 < np ==> LinkedTo(m', i, i + 1)
      ensures PagesDone(m', i + 1, np, last)
    {
      forall i': nat | i' < i
        ensures LinkedInPage(m', i', LinesOn(i', np, last))
      {
        assert LinkedInPage(m, i', LinesOn(i', np, last));
      }
      forall i': nat, i'': nat | i' < i && i'' == i' + 1 < np
        ensures LinkedTo(m', i', i'')
      {
        assert LinkedTo(m, i', i'');
      }
    }

    // Closing the ring stores into the last line used, and leaves every other link in place.
    lemma Closed(m: Memory, m': Memory, np: nat, last: nat)
      requires Valid() && Fits(np, last) && PagesDone(m, np, np, last)
      requires SameOutside(m, m', At(np - 1, last - 1, 0), At(np - 1, last - 1, 0) + line)
      requires Wrapped(m', np, last)
      ensures Linked(m', np, last)
    {
      forall i: nat | i < np
        ensures LinkedInPage(m', i, LinesOn(i, np, last))
      {
        KeepsLines(m, m', np - 1, last - 1, i, LinesOn(i, np, last));
      }
      forall i: nat, i': nat | i' == i + 1 < np
        ensures LinkedTo(m', i, i')
      {
        assert LinkedTo(m, i, i');
      }
    }
  }

  // The two memories agree outside [lo, hi).
  ghost predicate SameOutside(m: Memory, m': Memory, lo: int, hi: int) {
    forall a: int :: !(lo <= a < hi) ==> (a in m <==> a in m') && (a in m ==> m[a] == m'[a])
  }
}
