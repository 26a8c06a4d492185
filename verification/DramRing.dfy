/** The ring dram_page_initialize (lat_dram_page.c) leaves: still one cycle through every word,
    now group by group, and inside a group page by page at each offset. */
module DramRing {
  import opened Arith
  import opened Rings
  import opened Layout
  import opened DramPage

  // The same word of line j, across the n pages from page s on.
  function Across(g: Shape, s: nat, n: nat, j: nat, b: int): seq<int> {
    if s + n <= |g.pages| && j < |g.lines| then seq(n, (t: nat) requires t < n => g.At(s + t, j, b)) else []
  }

  function GroupRow(g: Shape, s: nat, n: nat, b: int): nat -> seq<int> {
    (j: nat) => Across(g, s, n, j, b)
  }

  // A group: line by line, for the first nl lines, and at each line all its pages.
  function GroupRun(g: Shape, s: nat, n: nat, nl: nat, b: int): seq<int> {
    Rows(nl, GroupRow(g, s, n, b))
  }

  // The group that starts at page s; it has as many lines as its last page.
  function GroupOn(g: Shape, s: nat, group: nat, np: nat, last: nat, b: int): seq<int>
    requires s < np && group > 0
  {
    var n := SizeAt(s, group, np);
    GroupRun(g, s, n, g.LinesOn(s + n - 1, np, last), b)
  }

  function LapRow(g: Shape, group: nat, np: nat, last: nat, b: int): nat -> seq<int>
    requires group > 0
  {
    (q: nat) => var s := Times(q, group); if s < np then GroupOn(g, s, group, np, last, b) else []
  }

  function Groups(np: nat, group: nat): nat
    requires np > 0 && group > 0
  {
    Quot(np - 1, group) + 1
  }

  // A lap: group by group.
  function Lap(g: Shape, group: nat, np: nat, last: nat, b: int): seq<int>
    requires np > 0 && group > 0
  {
    Rows(Groups(np, group), LapRow(g, group, np, last, b))
  }

  function DramRow(g: Shape, group: nat, np: nat, last: nat): nat -> seq<int>
    requires np > 0 && group > 0
  {
    (k: nat) => if k < |g.words| then Lap(g, group, np, last, g.words[k]) else []
  }

  /** The order in which the chain visits memory: lap by lap at the next word of the line, in a lap
      group by group, in a group line by line, and at each line all the pages of the group. */
  function Ring(g: Shape, group: nat, np: nat, last: nat): seq<int>
    requires np > 0 && group > 0
  {
    Rows(|g.words|, DramRow(g, group, np, last))
  }

  // ---- One group ----------------------------------------------------------------------

  lemma GroupMember(g: Shape, s: nat, n: nat, nl: nat, b: int, a: int)
    requires s + n <= |g.pages| && nl <= |g.lines|
    ensures a in GroupRun(g, s, n, nl, b) <==>
      exists i: nat, j: nat :: s <= i < s + n && j < nl && a == g.At(i, j, b)
  {
    RowsMember(nl, GroupRow(g, s, n, b), a);
    if a in GroupRun(g, s, n, nl, b) {
      var j: nat :| j < nl && a in GroupRow(g, s, n, b)(j);
      var t: nat :| t < n && Across(g, s, n, j, b)[t] == a;
      assert a == g.At(s + t, j, b);
    }
    if i: nat, j: nat :| s <= i < s + n && j < nl && a == g.At(i, j, b) {
      assert Across(g, s, n, j, b)[i - s] == a;
      assert a in GroupRow(g, s, n, b)(j);
    }
  }

  lemma AcrossPath(g: Shape, m: Memory, s: nat, n: nat, nl: nat, j: nat, b: int)
    requires g.Valid() && g.LinesCover() && s + n <= |g.pages| && nl <= |g.lines| && GroupLinked(g, m, s, n, nl)
    requires j < |g.lines| && b in g.words
    ensures Runs(m, Across(g, s, n, j, b), g.At(s, j, b), g.At(s + n - 1, j, b))
  {
    var r := Across(g, s, n, j, b);
    forall i, i' | 0 <= i && i' == i + 1 < |r|
      ensures Points(m, r[i], r[i'])
    {
      assert Parallel(g, m, s + i);
      AtIsWord(g, s + i, j, b);
      AtIsWord(g, s + i', j, b);
    }
    forall t: nat, t': nat | t < t' < n
      ensures r[t] != r[t']
    {
      assert g.IsWord(b);
      g.Injective(s + t, j, b, s + t', j, b);
    }
  }

  lemma AcrossApart(g: Shape, s: nat, n: nat, j: nat, j': nat, b: int)
    requires g.Valid() && g.LinesCover() && s + n <= |g.pages| && j < j' < |g.lines| && b in g.words
    ensures Apart(Across(g, s, n, j, b), Across(g, s, n, j', b))
  {
    var r, r' := Across(g, s, n, j, b), Across(g, s, n, j', b);
    forall t: nat, t': nat | t < n && t' < n
      ensures r[t] != r'[t']
    {
      assert g.IsWord(b);
      g.Injective(s + t, j, b, s + t', j', b);
    }
  }

  lemma GroupPath(g: Shape, m: Memory, s: nat, n: nat, nl: nat, b: int)
    requires g.Valid() && g.LinesCover() && s + n <= |g.pages| && 0 < nl <= |g.lines|
    requires GroupLinked(g, m, s, n, nl) && b in g.words
    ensures Runs(m, GroupRun(g, s, n, nl, b), g.At(s, 0, b), g.At(s + n - 1, nl - 1, b))
  {
    var row := GroupRow(g, s, n, b);
    forall j: nat | j < nl
      ensures Runs(m, row(j), g.At(s, j, b), g.At(s + n - 1, j, b))
    {
      AcrossPath(g, m, s, n, nl, j, b);
    }
    forall j: nat, j': nat | j < j' < nl
      ensures Apart(row(j), row(j'))
    {
      AcrossApart(g, s, n, j, j', b);
    }
    forall j: nat, j': nat | j' == j + 1 < nl
      ensures Joined(m, row(j), row(j'))
    {
      assert Points(m, g.At(s + n - 1, j, b), g.At(s, j', b));
    }
    RowsPath(m, nl, row);
    RowsDistinct(nl, row);
  }

  // ---- One lap ------------------------------------------------------------------------

  // Which pages the groups start at.
  lemma GroupStart(np: nat, group: nat, q: nat)
    requires np > 0 && group > 0 && q < Groups(np, group)
    ensures Times(q, group) < np
    ensures var e := Times(q, group) + SizeAt(Times(q, group), group, np);
      if q == Groups(np, group) - 1 then e == np else e == Times(q + 1, group) < np
  {
    QuotIsDivision(np - 1, group);
    TimesMonotone(q, Groups(np, group) - 1, group);
    if q < Groups(np, group) - 1 {
      TimesMonotone(q + 1, Groups(np, group) - 1, group);
    }
  }

  // Which group a page is in.
  lemma GroupOf(np: nat, group: nat, i: nat) returns (q: nat)
    requires group > 0 && i < np
    ensures q < Groups(np, group)
    ensures Times(q, group) <= i < Times(q, group) + group
  {
    q := Quot(i, group);
    QuotIsDivision(i, group);
    QuotIsDivision(np - 1, group);
    if q > Quot(np - 1, group) {
      TimesMonotone(Quot(np - 1, group) + 1, q, group);
    }
  }

  // The page the last group starts at.
  function LastStart(group: nat, np: nat): nat
    requires np > 0 && group > 0
  {
    Times(Groups(np, group) - 1, group)
  }

  // How many lines of page i the chain visits: in the last group as many as the last page has.
  function LinesUsed(g: Shape, i: nat, group: nat, np: nat, last: nat): nat
    requires np > 0 && group > 0
  {
    if i < LastStart(group, np) then |g.lines| else last
  }

  lemma GroupLines(g: Shape, group: nat, np: nat, last: nat, q: nat, i: nat)
    requires g.Fits(np, last) && group > 0 && q < Groups(np, group)
    requires Times(q, group) < np && Times(q, group) <= i < EndOf(q, group, np)
    ensures LinesUsed(g, i, group, np, last) == g.LinesOn(EndOf(q, group, np) - 1, np, last)
  {
    GroupStart(np, group, q);
    if q < Groups(np, group) - 1 {
      TimesMonotone(q + 1, Groups(np, group) - 1, group);
    }
  }

  lemma GroupOnMember(g: Shape, group: nat, np: nat, last: nat, q: nat, b: int, a: int)
    requires g.Fits(np, last) && group > 0 && q < Groups(np, group) && Times(q, group) < np
    ensures a in LapRow(g, group, np, last, b)(q) <==>
      exists i: nat, j: nat :: Times(q, group) <= i < EndOf(q, group, np)
        && j < LinesUsed(g, i, group, np, last) && a == g.At(i, j, b)
  {
    var s, e := Times(q, group), EndOf(q, group, np);
    GroupMember(g, s, SizeAt(s, group, np), g.LinesOn(e - 1, np, last), b, a);
    forall i: nat | s <= i < e
      ensures LinesUsed(g, i, group, np, last) == g.LinesOn(e - 1, np, last)
    {
      GroupLines(g, group, np, last, q, i);
    }
  }

  lemma LapMember(g: Shape, group: nat, np: nat, last: nat, b: int, a: int)
    requires g.Fits(np, last) && group > 0
    ensures a in Lap(g, group, np, last, b) <==>
      exists i: nat, j: nat :: i < np && j < LinesUsed(g, i, group, np, last) && a == g.At(i, j, b)
  {
    var row := LapRow(g, group, np, last, b);
    RowsMember(Groups(np, group), row, a);
    if a in Lap(g, group, np, last, b) {
      var q: nat :| q < Groups(np, group) && a in row(q);
      GroupStart(np, group, q);
      GroupOnMember(g, group, np, last, q, b, a);
    }
    if i: nat, j: nat :| i < np && j < LinesUsed(g, i, group, np, last) && a == g.At(i, j, b) {
      var q := GroupOf(np, group, i);
      GroupStart(np, group, q);
      GroupOnMember(g, group, np, last, q, b, a);
      assert a in row(q);
    }
  }

  // The page after group q.
  function EndOf(q: nat, group: nat, np: nat): nat
    requires Times(q, group) < np
  {
    Times(q, group) + SizeAt(Times(q, group), group, np)
  }

  // The end of the group before page e: the last line its last page has.
  function EndSlot(g: Shape, e: nat, np: nat, last: nat, b: int): int
    requires g.Fits(np, last) && 0 < e <= np
  {
    g.At(e - 1, g.LinesOn(e - 1, np, last) - 1, b)
  }

  lemma GroupAt(g: Shape, m: Memory, group: nat, np: nat, last: nat, q: nat, b: int)
    requires g.Valid() && g.LinesCover() && g.Fits(np, last) && group > 0 && b in g.words
    requires GroupsLinked(g, m, np, group, np, last) && Times(q, group) < np
    ensures 0 < EndOf(q, group, np) <= np && Exits(g, m, EndOf(q, group, np), np, last)
    ensures Runs(m, LapRow(g, group, np, last, b)(q),
      g.At(Times(q, group), 0, b), EndSlot(g, EndOf(q, group, np), np, last, b))
  {
    RowIsGroup(g, group, np, last, q, b);
    GroupRuns(g, m, group, np, last, q, Times(q, group), b);
  }

  lemma RowIsGroup(g: Shape, group: nat, np: nat, last: nat, q: nat, b: int)
    requires group > 0 && Times(q, group) < np
    ensures LapRow(g, group, np, last, b)(q) == GroupOn(g, Times(q, group), group, np, last, b)
  {
  }

  lemma GroupRuns(g: Shape, m: Memory, group: nat, np: nat, last: nat, q: nat, s: nat, b: int)
    requires g.Valid() && g.LinesCover() && g.Fits(np, last) && group > 0 && b in g.words
    requires GroupsLinked(g, m, np, group, np, last) && Starts(q, s, group) && s < np
    ensures var e := s + SizeAt(s, group, np);
      && 0 < e <= np && Exits(g, m, e, np, last)
      && Runs(m, GroupOn(g, s, group, np, last, b), g.At(s, 0, b), EndSlot(g, e, np, last, b))
  {
    var n := SizeAt(s, group, np);
    GroupPath(g, m, s, n, g.LinesOn(s + n - 1, np, last), b);
  }

  lemma GroupsJoined(g: Shape, m: Memory, group: nat, np: nat, last: nat, q: nat, q': nat, b: int)
    requires g.Valid() && g.LinesCover() && g.Fits(np, last) && group > 0 && b in g.words
    requires GroupsLinked(g, m, np, group, np, last) && q' == q + 1 < Groups(np, group)
    ensures Joined(m, LapRow(g, group, np, last, b)(q), LapRow(g, group, np, last, b)(q'))
  {
    NextGroup(np, group, q, q');
    GroupAt(g, m, group, np, last, q, b);
    GroupAt(g, m, group, np, last, q', b);
    LeadsToNext(g, m, EndOf(q, group, np), np, last, b);
  }

  lemma NextGroup(np: nat, group: nat, q: nat, q': nat)
    requires np > 0 && group > 0 && q' == q + 1 < Groups(np, group)
    ensures Times(q, group) < np && Times(q', group) < np && EndOf(q, group, np) == Times(q', group)
  {
    GroupStart(np, group, q);
    GroupStart(np, group, q');
  }

  lemma LeadsToNext(g: Shape, m: Memory, e: nat, np: nat, last: nat, b: int)
    requires g.Fits(np, last) && 0 < e < np && Exits(g, m, e, np, last) && b in g.words
    ensures Points(m, EndSlot(g, e, np, last, b), g.At(e, 0, b))
  {
  }

  lemma GroupsApart(g: Shape, group: nat, np: nat, last: nat, q: nat, q': nat, b: int)
    requires g.Valid() && g.Fits(np, last) && group > 0 && 0 <= b <= g.line - WORD
    requires q < q' < Groups(np, group)
    ensures Apart(LapRow(g, group, np, last, b)(q), LapRow(g, group, np, last, b)(q'))
  {
    EndsBefore(np, group, q, q');
    forall a | a in LapRow(g, group, np, last, b)(q)
      ensures a !in LapRow(g, group, np, last, b)(q')
    {
      OneGroup(g, group, np, last, q, q', b, a);
    }
  }

  lemma EndsBefore(np: nat, group: nat, q: nat, q': nat)
    requires np > 0 && group > 0 && q < q' < Groups(np, group)
    ensures Times(q, group) < np && Times(q', group) < np && EndOf(q, group, np) <= Times(q', group)
  {
    GroupStart(np, group, q);
    GroupStart(np, group, q');
    TimesMonotone(q + 1, q', group);
  }

  lemma OneGroup(g: Shape, group: nat, np: nat, last: nat, q: nat, q': nat, b: int, a: int)
    requires g.Valid() && g.Fits(np, last) && group > 0 && 0 <= b <= g.line - WORD
    requires q < Groups(np, group) && q' < Groups(np, group) && Times(q, group) < np && Times(q', group) < np
    requires EndOf(q, group, np) <= Times(q', group)
    ensures !(a in LapRow(g, group, np, last, b)(q) && a in LapRow(g, group, np, last, b)(q'))
  {
    if a in LapRow(g, group, np, last, b)(q) && a in LapRow(g, group, np, last, b)(q') {
      var i, j := LineIn(g, group, np, last, q, b, a);
      var i', j' := LineIn(g, group, np, last, q', b, a);
      g.Injective(i, j, b, i', j', b);
    }
  }

  // The page and line of a slot of group q.
  lemma LineIn(g: Shape, group: nat, np: nat, last: nat, q: nat, b: int, a: int) returns (i: nat, j: nat)
    requires g.Fits(np, last) && group > 0 && q < Groups(np, group) && Times(q, group) < np
    requires a in LapRow(g, group, np, last, b)(q)
    ensures Times(q, group) <= i < EndOf(q, group, np) && i < np && j < |g.lines| && a == g.At(i, j, b)
  {
    GroupStart(np, group, q);
    GroupOnMember(g, group, np, last, q, b, a);
    i, j :| Times(q, group) <= i < EndOf(q, group, np) && j < LinesUsed(g, i, group, np, last) && a == g.At(i, j, b);
  }

  // The rows of a lap: paths, apart from each other, each leading to the next.
  lemma RowsArePaths(g: Shape, m: Memory, group: nat, np: nat, last: nat, b: int)
    requires g.Valid() && g.LinesCover() && g.Fits(np, last) && group > 0 && b in g.words
    requires GroupsLinked(g, m, np, group, np, last)
    ensures forall q: nat | q < Groups(np, group) ::
              var s := LapRow(g, group, np, last, b)(q); s != [] && IsPath(m, s) && Distinct(s)
  {
    forall q: nat | q < Groups(np, group)
      ensures var s := LapRow(g, group, np, last, b)(q); s != [] && IsPath(m, s) && Distinct(s)
    {
      GroupStart(np, group, q);
      GroupAt(g, m, group, np, last, q, b);
    }
  }

  lemma RowsApart(g: Shape, group: nat, np: nat, last: nat, b: int)
    requires g.Valid() && g.Fits(np, last) && group > 0 && 0 <= b <= g.line - WORD
    ensures forall q: nat, q': nat | q < q' < Groups(np, group) ::
              Apart(LapRow(g, group, np, last, b)(q), LapRow(g, group, np, last, b)(q'))
  {
    forall q: nat, q': nat | q < q' < Groups(np, group)
      ensures Apart(LapRow(g, group, np, last, b)(q), LapRow(g, group, np, last, b)(q'))
    {
      GroupsApart(g, group, np, last, q, q', b);
    }
  }

  lemma RowsJoined(g: Shape, m: Memory, group: nat, np: nat, last: nat, b: int)
    requires g.Valid() && g.LinesCover() && g.Fits(np, last) && group > 0 && b in g.words
    requires GroupsLinked(g, m, np, group, np, last)
    ensures forall q: nat, q': nat | q' == q + 1 < Groups(np, group) ::
              Joined(m, LapRow(g, group, np, last, b)(q), LapRow(g, group, np, last, b)(q'))
  {
    forall q: nat, q': nat | q' == q + 1 < Groups(np, group)
      ensures Joined(m, LapRow(g, group, np, last, b)(q), LapRow(g, group, np, last, b)(q'))
    {
      GroupsJoined(g, m, group, np, last, q, q', b);
    }
  }

  lemma LapPath(g: Shape, m: Memory, group: nat, np: nat, last: nat, b: int)
    requires g.Valid() && g.LinesCover() && g.Fits(np, last) && group > 0 && b in g.words
    requires GroupsLinked(g, m, np, group, np, last)
    ensures Runs(m, Lap(g, group, np, last, b), g.At(0, 0, b), g.At(np - 1, last - 1, b))
  {
    var row, n := LapRow(g, group, np, last, b), Groups(np, group);
    RowsArePaths(g, m, group, np, last, b);
    assert g.IsWord(b);
    RowsApart(g, group, np, last, b);
    RowsJoined(g, m, group, np, last, b);
    RowsPath(m, n, row);
    RowsDistinct(n, row);
    FirstGroup(g, m, group, np, last, b);
    LastGroup(g, m, group, np, last, n - 1, b);
  }

  lemma FirstGroup(g: Shape, m: Memory, group: nat, np: nat, last: nat, b: int)
    requires g.Valid() && g.LinesCover() && g.Fits(np, last) && group > 0 && b in g.words
    requires GroupsLinked(g, m, np, group, np, last)
    ensures Runs(m, LapRow(g, group, np, last, b)(0), g.At(0, 0, b), EndSlot(g, EndOf(0, group, np), np, last, b))
  {
    GroupAt(g, m, group, np, last, 0, b);
  }

  lemma LastGroup(g: Shape, m: Memory, group: nat, np: nat, last: nat, q: nat, b: int)
    requires g.Valid() && g.LinesCover() && g.Fits(np, last) && group > 0 && b in g.words
    requires GroupsLinked(g, m, np, group, np, last) && q + 1 == Groups(np, group)
    ensures var r := LapRow(g, group, np, last, b)(q); r != [] && r[|r| - 1] == g.At(np - 1, last - 1, b)
  {
    GroupStart(np, group, q);
    GroupAt(g, m, group, np, last, q, b);
    assert EndOf(q, group, np) == np;
  }

  // ---- The ring -------------------------------------------------------------------------

  lemma LapsApart(g: Shape, group: nat, np: nat, last: nat, k: nat, k': nat)
    requires g.Valid() && g.Fits(np, last) && group > 0 && k < k' < |g.words|
    ensures Apart(Lap(g, group, np, last, g.words[k]), Lap(g, group, np, last, g.words[k']))
  {
    forall a | a in Lap(g, group, np, last, g.words[k])
      ensures a !in Lap(g, group, np, last, g.words[k'])
    {
      LapMember(g, group, np, last, g.words[k], a);
      LapMember(g, group, np, last, g.words[k'], a);
    }
  }

  lemma WrapsAround(g: Shape, m: Memory, group: nat, np: nat, last: nat)
    requires g.Valid() && g.LinesCover() && g.Fits(np, last) && group > 0
    requires GroupsLinked(g, m, np, group, np, last)
    ensures g.Wrapped(m, np, last)
  {
    var q := Groups(np, group) - 1;
    GroupStart(np, group, q);
    assert Starts(q, Times(q, group), group);
    assert Exits(g, m, EndOf(q, group, np), np, last);
  }

  lemma LapsJoined(g: Shape, m: Memory, group: nat, np: nat, last: nat, k: nat, k': nat)
    requires g.Valid() && g.LinesCover() && g.Fits(np, last) && group > 0 && k < |g.words|
    requires GroupsLinked(g, m, np, group, np, last)
    requires k' == if k == |g.words| - 1 then 0 else k + 1
    ensures Joined(m, Lap(g, group, np, last, g.words[k]), Lap(g, group, np, last, g.words[k']))
  {
    LapPath(g, m, group, np, last, g.words[k]);
    LapPath(g, m, group, np, last, g.words[k']);
    WrapsAround(g, m, group, np, last);
    assert Points(m, g.At(np - 1, last - 1, g.words[k]), g.At(0, 0, g.NextWord(k)));
  }

  /** After every group has been regrouped the chain is still one single cycle. */
  lemma GroupedRing(g: Shape, m: Memory, group: nat, np: nat, last: nat)
    requires g.Valid() && g.LinesCover() && g.Fits(np, last) && group > 0
    requires GroupsLinked(g, m, np, group, np, last)
    ensures IsRing(m, Ring(g, group, np, last)) && Ring(g, group, np, last)[0] == g.At(0, 0, g.words[0])
  {
    var row := DramRow(g, group, np, last);
    forall k: nat | k < |g.words|
      ensures row(k) != [] && IsPath(m, row(k)) && Distinct(row(k))
    {
      LapPath(g, m, group, np, last, g.words[k]);
    }
    forall k: nat, k': nat | k < k' < |g.words|
      ensures Apart(row(k), row(k'))
    {
      LapsApart(g, group, np, last, k, k');
    }
    forall k: nat, k': nat | k' == k + 1 < |g.words|
      ensures Joined(m, row(k), row(k'))
    {
      LapsJoined(g, m, group, np, last, k, k');
    }
    LapsJoined(g, m, group, np, last, |g.words| - 1, 0);
    LapPath(g, m, group, np, last, g.words[0]);
    RowsRing(m, |g.words|, row);
  }

  /** ... through the words of all lines, except that in the last group every page is left after as
      many lines as the last page has. */
  lemma GroupedMember(g: Shape, group: nat, np: nat, last: nat, a: int)
    requires g.Fits(np, last) && group > 0
    ensures a in Ring(g, group, np, last) <==>
      exists i: nat, j: nat, b :: i < np && j < LinesUsed(g, i, group, np, last) && b in g.words && a == g.At(i, j, b)
  {
    RowsMember(|g.words|, DramRow(g, group, np, last), a);
    if a in Ring(g, group, np, last) {
      var k: nat :| k < |g.words| && a in DramRow(g, group, np, last)(k);
      LapMember(g, group, np, last, g.words[k], a);
    }
    if i: nat, j: nat, b :| i < np && j < LinesUsed(g, i, group, np, last) && b in g.words && a == g.At(i, j, b) {
      var k: nat :| k < |g.words| && g.words[k] == b;
      LapMember(g, group, np, last, b, a);
      assert a in DramRow(g, group, np, last)(k);
    }
  }

  // The last group has one page.
  predicate LastAlone(group: nat, np: nat)
    requires np > 0 && group > 0
  {
    LastStart(group, np) == np - 1
  }

  /** These are the slots of the ring mem_initialize built if and only if the last page has all its
      lines or is a group of its own; otherwise lines of the pages grouped with it are lost. */
  lemma SameSlotsIff(g: Shape, group: nat, np: nat, last: nat)
    requires g.Valid() && g.Fits(np, last) && group > 0
    ensures (forall a :: a in Ring(g, group, np, last) <==> a in g.Ring(np, last))
      <==> last == |g.lines| || LastAlone(group, np)
  {
    GroupStart(np, group, Groups(np, group) - 1);
    if last == |g.lines| || LastAlone(group, np) {
      forall a
        ensures a in Ring(g, group, np, last) <==> a in g.Ring(np, last)
      {
        SameLines(g, group, np, last, a);
      }
    } else {
      LostLine(g, group, np, last);
    }
  }

  lemma SameLines(g: Shape, group: nat, np: nat, last: nat, a: int)
    requires g.Fits(np, last) && group > 0 && (last == |g.lines| || LastAlone(group, np))
    ensures a in Ring(g, group, np, last) <==> a in g.Ring(np, last)
  {
    forall i: nat | i < np
      ensures LinesUsed(g, i, group, np, last) == g.LinesOn(i, np, last)
    {
    }
    GroupedMember(g, group, np, last, a);
    g.RingMember(np, last, a);
  }

  // A slot that the chain no longer visits.
  lemma LostLine(g: Shape, group: nat, np: nat, last: nat)
    requires g.Valid() && g.Fits(np, last) && group > 0
    requires last < |g.lines| && LastStart(group, np) < np - 1
    ensures var a := g.At(LastStart(group, np), last, g.words[0]);
      a in g.Ring(np, last) && a !in Ring(g, group, np, last)
  {
    var s, b := LastStart(group, np), g.words[0];
    var a := g.At(s, last, b);
    g.RingMember(np, last, a);
    GroupedMember(g, group, np, last, a);
    if i: nat, j: nat, b' :| i < np && j < LinesUsed(g, i, group, np, last) && b' in g.words && a == g.At(i, j, b') {
      g.Injective(i, j, b', s, last, b);
    }
  }
}
