/** The directory tree lat_fs.c works in: setup_names, the files in it, and cleanup_names. */
module LatFs {
  import opened Arith
  import opened LatFsTree
  import opened LatFsOrder

  datatype Option<T> = None | Some(value: T)

  type Name = Option<Path>

  function Somes(s: seq<Path>): seq<Name> {
    seq(|s|, (k: nat) requires k < |s| => Some(s[k]))
  }

  function ToSet(s: seq<Path>): set<Path> {
    set p | p in s
  }

  // after is before with the names s stored from at on.
  ghost predicate Stored(after: seq<Name>, before: seq<Name>, at: nat, s: seq<Path>) {
    at + |s| <= |before| && after == before[..at] + Somes(s) + before[at + |s|..]
  }

  lemma StoredTwice(c: seq<Name>, b: seq<Name>, a: seq<Name>, at: nat, s: seq<Path>, t: seq<Path>)
    requires Stored(b, a, at, s) && Stored(c, b, at + |s|, t)
    ensures Stored(c, a, at, s + t)
  {
    assert Somes(s + t) == Somes(s) + Somes(t);
    assert b[..at + |s|] == a[..at] + Somes(s);
    assert b[at + |s| + |t|..] == a[at + |s| + |t|..];
  }

  lemma StoredOne(a: seq<Name>, at: nat, p: Path)
    requires at < |a|
    ensures Stored(a[at := Some(p)], a, at, [p])
  {
    assert a[at := Some(p)] == a[..at] + Somes([p]) + a[at + 1..];
  }

  lemma StoredNext(c: seq<Name>, b: seq<Name>, a: seq<Name>, at: nat, s: seq<Path>, p: Path)
    requires Stored(b, a, at, s) && at + |s| < |a| && c == b[at + |s| := Some(p)]
    ensures Stored(c, a, at, s + [p])
  {
    StoredOne(b, at + |s|, p);
    StoredTwice(c, b, a, at, s, [p]);
  }

  // The list is what has been done followed by what is to do.
  ghost predicate Splits(all: seq<Path>, done: seq<Path>, todo: seq<Path>) {
    all == done + todo
  }

  lemma SplitsNext(all: seq<Path>, done: seq<Path>, todo: seq<Path>, s: seq<Path>, rest: seq<Path>)
    requires Splits(all, done, todo) && todo == s + rest
    ensures Splits(all, done + s, rest) && |done| + |s| + |rest| == |all|
  {
  }

  // mkdir and creat need the directory they add to; rmdir leaves a directory that holds something.
  function Mkdir(fs: set<Path>, p: Path): set<Path> {
    if p == [] || Parent(p) in fs then fs + {p} else fs
  }

  predicate Empty(fs: set<Path>, p: Path) {
    forall q :: q in fs && q != [] ==> Parent(q) != p
  }

  function Rmdir(fs: set<Path>, p: Path): set<Path> {
    if Empty(fs, p) then fs - {p} else fs
  }

  // Everything the recursion writes.
  datatype Tree = Tree(names: seq<Name>, dirs: seq<Name>, fs: set<Path>)

  // The files f have been named from slot foff on, and the directories d made and named from the slot
  // after doff on.
  ghost predicate Grown(after: Tree, before: Tree, foff: nat, doff: nat, f: seq<Path>, d: seq<Path>) {
    && Stored(after.names, before.names, foff, f) && Stored(after.dirs, before.dirs, doff + 1, d)
    && after.fs == before.fs + ToSet(d)
  }

  lemma GrownNot(t: Tree, foff: nat, doff: nat)
    requires foff <= |t.names| && doff < |t.dirs|
    ensures Grown(t, t, foff, doff, [], [])
  {
  }

  lemma GrownTwice(c: Tree, b: Tree, a: Tree, foff: nat, doff: nat, f: seq<Path>, d: seq<Path>,
                   f': seq<Path>, d': seq<Path>)
    requires Grown(b, a, foff, doff, f, d) && Grown(c, b, foff + |f|, doff + |d|, f', d')
    ensures Grown(c, a, foff, doff, f + f', d + d')
  {
    StoredTwice(c.names, b.names, a.names, foff, f, f');
    StoredTwice(c.dirs, b.dirs, a.dirs, doff + 1, d, d');
    assert ToSet(d + d') == ToSet(d) + ToSet(d');
  }

  lemma GrownDir(after: Tree, before: Tree, foff: nat, doff: nat, base: Path, name: Path)
    requires foff <= |before.names| && doff + 1 < |before.dirs| && base in before.fs
    requires name != [] && Parent(name) == base
    requires after.names == before.names && after.dirs == before.dirs[doff + 1 := Some(name)]
    requires after.fs == Mkdir(before.fs, name)
    ensures Grown(after, before, foff, doff, [], [name])
  {
    StoredOne(before.dirs, doff + 1, name);
  }

  // ---- The guard i < ndirs of the recursion -------------------------------------------------------------

  // r of r0 files are left after i directories that can each hold p.
  predicate Left(r: nat, r0: nat, i: nat, p: nat) {
    r == 0 || r + Times(i, p) == r0
  }

  lemma LeftNext(r: nat, r0: nat, i: nat, p: nat)
    requires Left(r, r0, i, p)
    ensures Left(r - Min(r, p), r0, i + 1, p)
  {
  }

  // Counting to r0 / p + 1 does not end the loop before the files are used up.
  lemma GuardHolds(r: nat, r0: nat, i: nat, p: nat)
    requires Left(r, r0, i, p) && r > 0 && p > 0
    ensures i < r0 / p + 1
  {
    TimesIsProduct(i, p);
    if i > r0 / p {
      MulMonotone(p, r0 / p + 1, i);
    }
  }

  // One round of the loop deals with one entry.
  lemma EntryNext(m: nat, base: Path, depth: nat, r: nat, i: nat, files: seq<Path>, f: seq<Path>,
                  dirs: seq<Path>, d: seq<Path>)
    requires depth > 0 && i < m && r > 0
    requires Splits(files, f, FilesFrom(m, base, depth, r, i)) && Splits(dirs, d, DirsFrom(m, base, depth, r, i))
    ensures var r' := r - Min(r, Pow(m, depth));
            && Splits(files, f + Files(m, base + [i], depth - 1, r), FilesFrom(m, base, depth, r', i + 1))
            && Splits(dirs, d + ([base + [i]] + Dirs(m, base + [i], depth - 1, r)), DirsFrom(m, base, depth, r', i + 1))
    ensures |d| + |DirsFrom(m, base, depth, r, i)| == |dirs|
  {
    var r' := r - Min(r, Pow(m, depth));
    SplitsNext(files, f, FilesFrom(m, base, depth, r, i), Files(m, base + [i], depth - 1, r),
               FilesFrom(m, base, depth, r', i + 1));
    SplitsNext(dirs, d, DirsFrom(m, base, depth, r, i), [base + [i]] + Dirs(m, base + [i], depth - 1, r),
               DirsFrom(m, base, depth, r', i + 1));
  }

  // One file.
  lemma FileNext(m: nat, base: Path, r: nat, i: nat, files: seq<Path>, f: seq<Path>)
    requires i < m && r > 0 && Splits(files, f, FilesFrom(m, base, 0, r, i))
    ensures Splits(files, f + [base + [i]], FilesFrom(m, base, 0, r - 1, i + 1))
  {
    SplitsNext(files, f, FilesFrom(m, base, 0, r, i), [base + [i]], FilesFrom(m, base, 0, r - 1, i + 1));
  }

  // Where the recursion is in a directory: entry i is next, and it began at slots foff0 and doff0.
  datatype Spot = Spot(m: nat, base: Path, depth: nat, n: nat, foff0: nat, doff0: nat, before: Tree)
  {
    ghost predicate Valid() {
      && m > 0 && depth > 0 && foff0 <= n == |before.names| && base in before.fs
      && doff0 + 1 + |AllDirs()| <= |before.dirs|
    }

    function AllFiles(): seq<Path> {
      if foff0 <= n then FilesFrom(m, base, depth, n - foff0, 0) else []
    }

    function AllDirs(): seq<Path> {
      if depth > 0 && foff0 <= n then DirsFrom(m, base, depth, n - foff0, 0) else []
    }

    ghost predicate Going(now: Tree, foff: nat, doff: nat, i: nat, f: seq<Path>, d: seq<Path>)
      requires Valid()
    {
      && i <= m && foff <= n && foff == foff0 + |f| && doff == doff0 + |d|
      && Splits(AllFiles(), f, FilesFrom(m, base, depth, n - foff, i))
      && Splits(AllDirs(), d, DirsFrom(m, base, depth, n - foff, i))
      && Grown(now, before, foff0, doff0, f, d) && Left(n - foff, n - foff0, i, Pow(m, depth))
    }

    // The directory has been filled.
    ghost predicate Filled(now: Tree, foff: nat, doff: nat) {
      && foff == foff0 + |AllFiles()| && doff == doff0 + |AllDirs()|
      && Grown(now, before, foff0, doff0, AllFiles(), AllDirs())
    }
  }

  lemma Begins(x: Spot)
    requires x.Valid()
    ensures x.Going(x.before, x.foff0, x.doff0, 0, [], [])
  {
    GrownNot(x.before, x.foff0, x.doff0);
  }

  lemma HasRoom(x: Spot, now: Tree, foff: nat, doff: nat, i: nat, f: seq<Path>, d: seq<Path>)
    requires x.Valid() && x.Going(now, foff, doff, i, f, d)
    ensures |now.names| == x.n && |now.dirs| == |x.before.dirs| && x.base in now.fs
    ensures doff + 1 + |DirsFrom(x.m, x.base, x.depth, x.n - foff, i)| <= |now.dirs|
  {
  }

  lemma GoesOn(x: Spot, then': Tree, now: Tree, foff: nat, doff: nat, i: nat, f: seq<Path>, d: seq<Path>,
               f': seq<Path>, d': seq<Path>)
    requires x.Valid() && x.Going(now, foff, doff, i, f, d) && i < x.m && foff < x.n
    requires f' == Files(x.m, x.base + [i], x.depth - 1, x.n - foff)
    requires d' == [x.base + [i]] + Dirs(x.m, x.base + [i], x.depth - 1, x.n - foff)
    requires |f'| == Min(x.n - foff, Pow(x.m, x.depth)) && Grown(then', now, foff, doff, f', d')
    ensures x.Going(then', foff + |f'|, doff + |d'|, i + 1, f + f', d + d')
  {
    EntryNext(x.m, x.base, x.depth, x.n - foff, i, x.AllFiles(), f, x.AllDirs(), d);
    LeftNext(x.n - foff, x.n - x.foff0, i, Pow(x.m, x.depth));
    GrownTwice(then', now, x.before, x.foff0, x.doff0, f, d, f', d');
  }

  lemma Ends(x: Spot, now: Tree, foff: nat, doff: nat, i: nat, f: seq<Path>, d: seq<Path>)
    requires x.Valid() && x.Going(now, foff, doff, i, f, d) && Pow(x.m, x.depth) > 0
    requires i >= x.m || i >= (x.n - x.foff0) / Pow(x.m, x.depth) + 1 || foff >= x.n
    ensures x.Filled(now, foff, doff)
  {
    NothingLeft(x, now, foff, doff, i, f, d);
    assert f + [] == f && d + [] == d;
  }

  lemma NothingLeft(x: Spot, now: Tree, foff: nat, doff: nat, i: nat, f: seq<Path>, d: seq<Path>)
    requires x.Valid() && x.Going(now, foff, doff, i, f, d) && Pow(x.m, x.depth) > 0
    requires i >= x.m || i >= (x.n - x.foff0) / Pow(x.m, x.depth) + 1 || foff >= x.n
    ensures FilesFrom(x.m, x.base, x.depth, x.n - foff, i) == [] == DirsFrom(x.m, x.base, x.depth, x.n - foff, i)
  {
    if i < x.m && foff < x.n {
      GuardHolds(x.n - foff, x.n - x.foff0, i, Pow(x.m, x.depth));
    }
  }

  // ---- The whole tree -------------------------------------------------------------------------------------

  function AllDirs(m: nat, depth: nat, n: nat): seq<Path> {
    [[]] + Dirs(m, [], depth, n)
  }

  lemma AllParentsFirst(m: nat, depth: nat, n: nat)
    ensures ParentsFirst(AllDirs(m, depth, n))
  {
    var s := AllDirs(m, depth, n);
    DirsParentsFirst(m, [], depth, n);
    forall j, k | 0 <= j < k < |s|
      ensures !Prefix(s[k], s[j])
    {
      assert s[k] == Dirs(m, [], depth, n)[k - 1];
      DirsUnder(m, [], depth, n, s[k]);
      if j > 0 {
        assert s[j] == Dirs(m, [], depth, n)[j - 1];
      }
    }
  }

  // The last level has one directory, and it can hold everything.
  lemma Root(m: nat, n: nat, depth: nat)
    requires m > 0 && n > 0 && Level(m, n, depth + 1) <= 1
    ensures n <= Pow(m, depth + 1)
    ensures |AllDirs(m, depth, n)| == Levels(m, n, depth + 1) && |Files(m, [], depth, n)| == n
  {
    LevelIsOne(m, n, depth + 1);
    LevelsNext(m, n, depth);
    DirsLength(m, [], depth, n);
    FilesLength(m, [], depth, n);
  }

  // Files are no directories.
  lemma FilesNotDirs(m: nat, depth: nat, n: nat)
    ensures ToSet(Files(m, [], depth, n)) !! ToSet(AllDirs(m, depth, n))
  {
    forall p | p in Files(m, [], depth, n) && p in AllDirs(m, depth, n)
      ensures false
    {
      FilesUnder(m, [], depth, n, p);
      if p != [] {
        DirsUnder(m, [], depth, n, p);
      }
    }
  }

  // Every file has the directory it is in.
  lemma FilesInDirs(m: nat, depth: nat, n: nat, p: Path)
    requires p in Files(m, [], depth, n)
    ensures p != [] && Parent(p) in AllDirs(m, depth, n)
  {
    FilesUnder(m, [], depth, n, p);
  }

  // Taking away the last directory: there is nothing below it any more.
  lemma LastIsEmpty(s: seq<Path>, i: nat)
    requires ParentsFirst(s) && i < |s|
    ensures Rmdir(ToSet(s[..i + 1]), s[i]) == ToSet(s[..i])
  {
    forall q | q in ToSet(s[..i + 1]) && q != []
      ensures Parent(q) != s[i]
    {
      var j :| 0 <= j <= i && q == s[j];
      if j < i {
        assert !Prefix(s[i], s[j]);
      }
    }
    assert s[..i + 1] == s[..i] + [s[i]];
    forall j | 0 <= j < i
      ensures s[j] != s[i]
    {
      assert !Prefix(s[i], s[j]);
    }
  }

  // ---- Entries of a directory -----------------------------------------------------------------------------

  // The entries of directory q.
  ghost function Entries(m: nat, depth: nat, n: nat, q: Path): set<Path> {
    set p | p in AllDirs(m, depth, n) + Files(m, [], depth, n) && p != [] && Parent(p) == q
  }

  function Names(q: Path, m: nat): set<Path> {
    if m == 0 then {} else Names(q, m - 1) + {q + [m - 1]}
  }

  lemma {:induction false} NamesFacts(q: Path, m: nat, i: nat)
    ensures |Names(q, m)| <= m && (i < m ==> q + [i] in Names(q, m))
  {
    if m > 0 {
      NamesFacts(q, m - 1, i);
    }
  }

  lemma {:induction false} Subset(a: set<Path>, b: set<Path>)
    requires a <= b
    ensures |a| <= |b|
  {
    if a != {} {
      var x :| x in a;
      Subset(a - {x}, b - {x});
    }
  }

  /** No directory gets more than max entries. */
  lemma AtMostMax(m: nat, depth: nat, n: nat, q: Path)
    ensures |Entries(m, depth, n, q)| <= m
  {
    forall p | p in Entries(m, depth, n, q)
      ensures p in Names(q, m)
    {
      if p in Files(m, [], depth, n) {
        FilesUnder(m, [], depth, n, p);
      } else {
        DirsUnder(m, [], depth, n, p);
      }
      NamesFacts(q, m, p[|p| - 1]);
      assert p == Parent(p) + [p[|p| - 1]];
    }
    Subset(Entries(m, depth, n, q), Names(q, m));
    NamesFacts(q, m, 0);
  }

  // ---- The loop in setup_names ----------------------------------------------------------------------------

  /** Rounding up gets down to 1, for every number of files, if and only if directories can hold more than
      one entry: this is what the loop in setup_names needs. */
  lemma LoopEndsIff(m: nat)
    requires m > 0
    ensures (forall x: nat :: x > 1 ==> Ceil(x, m) < x) <==> m >= 2
  {
    if m >= 2 {
      forall x: nat | x > 1
        ensures Ceil(x, m) < x
      {
        CeilShrinks(x, m);
      }
    } else {
      assert Ceil(2, 1) == 2;
    }
  }

  lemma CeilShrinks(x: nat, m: nat)
    requires m >= 2 && x > 1
    ensures 1 <= Ceil(x, m) < x
  {
    QuotIsDivision(x, m);
    TimesIsProduct(Quot(x, m), m);
    MulMonotone(Quot(x, m), 2, m);
  }

  // Lines 133-135: how many files an entry can take.
  method Power(max: nat, depth: nat) returns (count: nat)
    requires depth > 0
    ensures count == Pow(max, depth)
  {
    count := max;
    TimesIsProduct(1, max);
    for j := 1 to depth
      invariant count == Pow(max, j)
    {
      TimesIsProduct(count, max);
      count := count * max;
    }
  }

  /** setup_names: how many directories there will be, on how many levels. */
  method CountDirs(max: nat, iterations: nat) returns (total: nat, depth: nat)
    requires iterations > 0 && (max >= 2 || (max == 1 && iterations == 1))
    ensures total == Levels(max, iterations, depth + 1) && Level(max, iterations, depth + 1) == 1
  {
    depth := 0;
    total := iterations / max;
    QuotIsDivision(iterations, max);
    if iterations % max != 0 {
      total := total + 1;
    }
    var nd := total;
    LevelIsOne(max, iterations, 1);
    while nd > 1
      invariant nd == Level(max, iterations, depth + 1) >= 1 && total == Levels(max, iterations, depth + 1)
      invariant nd > 1 ==> max >= 2
      decreases nd
    {
      QuotIsDivision(nd, max);
      CeilShrinks(nd, max);
      LevelsNext(max, iterations, depth + 1);
      nd := nd / max + if nd % max != 0 then 1 else 0;
      total := total + nd;
      depth := depth + 1;
    }
  }

  // The slots filled from the start to the end.
  lemma AllStored(now: Tree, before: Tree, m: nat, depth: nat, n: nat)
    requires Grown(now, before, 0, 0, Files(m, [], depth, n), Dirs(m, [], depth, n))
    requires |before.names| == |Files(m, [], depth, n)| && |before.dirs| == |AllDirs(m, depth, n)|
    requires before.dirs[0] == Some([]) && before.fs == {[]}
    ensures now.names == Somes(Files(m, [], depth, n)) && now.dirs == Somes(AllDirs(m, depth, n))
    ensures now.fs == ToSet(AllDirs(m, depth, n))
  {
    assert Somes(AllDirs(m, depth, n)) == [Some([])] + Somes(Dirs(m, [], depth, n));
  }

  // ---- The operations ---------------------------------------------------------------------------------------

  /** struct _state, with the part of the file system below the temporary directory. */
  class State {
    const max: nat
    var n: nat
    var ndirs: nat
    var names: array<Name>
    var dirs: array<Name>
    var fs: set<Path>

    constructor (max: nat)
      ensures this.max == max && fs == {}
    {
      this.max := max;
      n, ndirs, fs := 0, 0, {};
      names, dirs := new Name[0], new Name[0];
    }

    ghost function Now(): Tree
      reads this, names, dirs
    {
      Tree(names[..], dirs[..], fs)
    }

    /** setup_names_recurse: fills the directory in slot doff. */
    method SetupNamesRecurse(foff: nat, doff: nat, depth: nat) returns (foff': nat, doff': nat)
      requires max > 0 && names != dirs && foff <= n == names.Length
      requires doff < dirs.Length && dirs[doff].Some? && dirs[doff].value in fs
      requires doff + 1 + |Dirs(max, dirs[doff].value, depth, n - foff)| <= dirs.Length
      modifies names, dirs, this`fs
      ensures var f, d := Files(max, old(dirs[doff].value), depth, n - foff),
                          Dirs(max, old(dirs[doff].value), depth, n - foff);
              foff' == foff + |f| && doff' == doff + |d| && Grown(Now(), old(Now()), foff, doff, f, d)
      decreases depth, 3
    {
      foff', doff' := foff, doff;
      var base := dirs[doff].value;
      if depth > 0 {
        foff', doff' := SetupDirs(foff, doff, depth, base);
      } else {
        foff' := SetupFiles(foff, base);
        assert dirs[..] == old(dirs[..]);
      }
    }

    // The branch for directories of directories.
    method SetupDirs(foff: nat, doff: nat, depth: nat, base: Path) returns (foff': nat, doff': nat)
      requires max > 0 && names != dirs && foff <= n == names.Length && depth > 0
      requires doff < dirs.Length && base in fs
      requires doff + 1 + |DirsFrom(max, base, depth, n - foff, 0)| <= dirs.Length
      modifies names, dirs, this`fs
      ensures Spot(max, base, depth, n, foff, doff, old(Now())).Filled(Now(), foff', doff')
      decreases depth, 2
    {
      foff', doff' := foff, doff;
      var count := Power(max, depth);
      PowPositive(max, depth);
      var nd := (n - foff') / count + 1;
      var i := 0;
      ghost var f: seq<Path>, d: seq<Path> := [], [];
      ghost var x := Spot(max, base, depth, n, foff, doff, Now());
      Begins(x);
      while i < max && i < nd && foff' < n
        invariant x.Going(Now(), foff', doff', i, f, d)
      {
        foff', doff', f, d := SetupRound(foff', doff', depth, base, i, x, f, d);
        i := i + 1;
      }
      Ends(x, Now(), foff', doff', i, f, d);
    }

    // One round of its loop.
    method SetupRound(foff: nat, doff: nat, depth: nat, base: Path, i: nat,
                      ghost x: Spot, ghost f: seq<Path>, ghost d: seq<Path>)
        returns (foff': nat, doff': nat, ghost f': seq<Path>, ghost d': seq<Path>)
      requires names != dirs && x.m == max && x.n == n && x.base == base && x.depth == depth && i < max && foff < n
      requires x.Valid() && x.Going(Now(), foff, doff, i, f, d)
      modifies names, dirs, this`fs
      ensures x.Going(Now(), foff', doff', i + 1, f', d')
      decreases depth, 1
    {
      ghost var now := Now();
      ghost var f1, d1 := Files(x.m, x.base + [i], x.depth - 1, x.n - foff),
                          [x.base + [i]] + Dirs(x.m, x.base + [i], x.depth - 1, x.n - foff);
      HasRoom(x, now, foff, doff, i, f, d);
      foff', doff' := SetupEntry(foff, doff, depth, base, i);
      GoesOn(x, Now(), now, foff, doff, i, f, d, f1, d1);
      f', d' := f + f1, d + d1;
    }

    // The directory for entry i, and what is in it.
    method SetupEntry(foff: nat, doff: nat, depth: nat, base: Path, i: nat) returns (foff': nat, doff': nat)
      requires names != dirs && foff < n == names.Length && depth > 0 && i < max && base in fs
      requires doff + 1 + |DirsFrom(max, base, depth, n - foff, i)| <= dirs.Length
      modifies names, dirs, this`fs
      ensures var f, d := Files(max, base + [i], depth - 1, n - foff),
                          [base + [i]] + Dirs(max, base + [i], depth - 1, n - foff);
              && foff' == foff + |f| && doff' == doff + |d| && Grown(Now(), old(Now()), foff, doff, f, d)
              && |f| == Min(n - foff, Pow(max, depth))
      decreases depth, 0
    {
      var name := base + [i];
      ghost var before, f, d := Now(), Files(max, name, depth - 1, n - foff), Dirs(max, name, depth - 1, n - foff);
      dirs[doff + 1] := Some(name);
      fs := Mkdir(fs, name);
      GrownDir(Now(), before, foff, doff, base, name);
      ghost var made := Now();
      foff', doff' := SetupNamesRecurse(foff, doff + 1, depth - 1);
      GrownTwice(Now(), made, before, foff, doff, [], [name], f, d);
      assert [] + f == f;
      FilesLength(max, name, depth - 1, n - foff);
    }

    // The name of file i of a directory.
    method NameFile(at: nat, base: Path, i: nat, ghost before: seq<Name>, ghost foff: nat, ghost f: seq<Path>)
      requires at == foff + |f| < names.Length && Stored(names[..], before, foff, f)
      modifies names
      ensures Stored(names[..], before, foff, f + [base + [i]])
    {
      ghost var now := names[..];
      names[at] := Some(base + [i]);
      StoredNext(names[..], now, before, foff, f, base + [i]);
    }

    method SetupFiles(foff: nat, base: Path) returns (foff': nat)
      requires foff <= n == names.Length
      modifies names
      ensures var f := FilesFrom(max, base, 0, n - foff, 0);
              foff' == foff + |f| && Stored(names[..], old(names[..]), foff, f)
    {
      foff' := foff;
      var i := 0;
      ghost var f: seq<Path> := [];
      ghost var before := names[..];
      ghost var all := FilesFrom(max, base, 0, n - foff, 0);
      while i < max && foff' < n
        invariant i <= max && foff' <= n && foff' == foff + |f|
        invariant Splits(all, f, FilesFrom(max, base, 0, n - foff', i))
        invariant Stored(names[..], before, foff, f)
      {
        FileNext(max, base, n - foff', i, all, f);
        NameFile(foff', base, i, before, foff, f);
        foff' := foff' + 1;
        f := f + [base + [i]];
        i := i + 1;
      }
    }

    // What setup_names leaves behind; level is the depth of the tree.
    ghost predicate SetUp(level: nat)
      reads this, names, dirs
    {
      && names != dirs && n > 0
      && names[..] == Somes(Files(max, [], level, n)) && dirs[..] == Somes(AllDirs(max, level, n))
      && names.Length == n == |Files(max, [], level, n)| && ndirs == dirs.Length == |AllDirs(max, level, n)|
    }

    /** setup_names: ok says that it finds nothing to complain about. */
    method SetupNames(iterations: nat) returns (ok: bool, ghost level: nat)
      requires iterations == 0 || max >= 2 || (max == 1 && iterations == 1)
      requires fs == {}
      modifies this
      ensures iterations > 0 ==> ok && n == iterations && SetUp(level) && fs == ToSet(AllDirs(max, level, n))
      ensures iterations == 0 ==> fs == {} && n == old(n)
    {
      ok, level := true, 0;
      if iterations == 0 {
        return;
      }
      n := iterations;
      var depth;
      ndirs, depth := CountDirs(max, iterations);
      level := depth;
      Root(max, n, depth);
      names := new Name[n](_ => None);
      dirs := new Name[ndirs](_ => None);
      fs := Mkdir(fs, []);
      dirs[0] := Some([]);
      ghost var before := Now();
      var foff, doff := SetupNamesRecurse(0, 0, depth);
      ok := foff == iterations && doff == ndirs - 1;
      AllStored(Now(), before, max, depth, n);
    }

    /** cleanup_names: rmdir() never finds a directory that is not empty. */
    method CleanupNames(iterations: nat, ghost level: nat)
      requires iterations > 0 ==> SetUp(level) && fs == ToSet(AllDirs(max, level, n))
      modifies this
      ensures iterations > 0 ==> fs == {} && n == 0 && ndirs == 0
      ensures iterations == 0 ==> fs == old(fs) && n == old(n) && ndirs == old(ndirs)
    {
      if iterations == 0 {
        return;
      }
      ghost var s := AllDirs(max, level, n);
      AllParentsFirst(max, level, n);
      n := 0;
      var i := ndirs;
      assert s[..i] == s;
      while i > 0
        invariant n == 0 && i <= ndirs == |s| == dirs.Length && dirs[..] == Somes(s) && fs == ToSet(s[..i])
      {
        i := i - 1;
        LastIsEmpty(s, i);
        assert dirs[..][i] == Some(s[i]);
        fs := Rmdir(fs, dirs[i].value);
      }
      ndirs := 0;
    }

    /** benchmark_mk, from the last file to the first. */
    method BenchmarkMk(iterations: nat, ghost level: nat)
      requires iterations > 0 ==> SetUp(level) && iterations == n && ToSet(AllDirs(max, level, n)) <= fs
      modifies this`fs
      ensures fs == old(fs) + if iterations > 0 then ToSet(Files(max, [], level, n)) else {}
    {
      ghost var s := if iterations > 0 then Files(max, [], level, n) else [];
      var i := iterations;
      assert s[i..] == [];
      while i > 0
        invariant i <= iterations && fs == old(fs) + ToSet(s[i..])
      {
        i := i - 1;
        assert names[..][i] == Some(s[i]);
        FilesInDirs(max, level, n, s[i]);
        assert s[i..] == [s[i]] + s[i + 1..];
        fs := Mkdir(fs, names[i].value);
      }
      assert s[0..] == s;
    }

    /** benchmark_rm. */
    method BenchmarkRm(iterations: nat, ghost level: nat)
      requires iterations > 0 ==> SetUp(level) && iterations == n
      modifies this`fs
      ensures fs == old(fs) - if iterations > 0 then ToSet(Files(max, [], level, n)) else {}
    {
      ghost var s := if iterations > 0 then Files(max, [], level, n) else [];
      var i := iterations;
      assert s[i..] == [];
      while i > 0
        invariant i <= iterations && fs == old(fs) - ToSet(s[i..])
      {
        i := i - 1;
        assert names[..][i] == Some(s[i]);
        assert s[i..] == [s[i]] + s[i + 1..];
        fs := fs - {names[i].value};
      }
      assert s[0..] == s;
    }

    /** setup_rm. */
    method SetupRm(iterations: nat) returns (ok: bool, ghost level: nat)
      requires iterations == 0 || max >= 2 || (max == 1 && iterations == 1)
      requires fs == {}
      modifies this
      ensures iterations > 0 ==>
                && ok && n == iterations && SetUp(level)
                && fs == ToSet(AllDirs(max, level, n)) + ToSet(Files(max, [], level, n))
      ensures iterations == 0 ==> fs == {}
    {
      ok, level := true, 0;
      if iterations == 0 {
        return;
      }
      ok, level := SetupNames(iterations);
      BenchmarkMk(iterations, level);
    }

    /** cleanup_mk: after setup_rm, or setup_names and benchmark_mk, everything is as it was. */
    method CleanupMk(iterations: nat, ghost level: nat)
      requires iterations > 0 ==>
                 && SetUp(level) && iterations == n
                 && fs == ToSet(AllDirs(max, level, n)) + ToSet(Files(max, [], level, n))
      modifies this
      ensures iterations > 0 ==> fs == {} && n == 0 && ndirs == 0
      ensures iterations == 0 ==> fs == old(fs)
    {
      if iterations == 0 {
        return;
      }
      BenchmarkRm(iterations, level);
      FilesNotDirs(max, level, n);
      CleanupNames(iterations, level);
    }
  }
}
