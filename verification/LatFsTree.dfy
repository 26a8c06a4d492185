/** The directory tree of lat_fs.c as a value: which directories and files setup_names_recurse makes,
    in which order, and how many there are. */
module LatFsTree {
  import opened Arith

  // A name below the temporary directory: [] is that directory itself.
  type Path = seq<nat>

  // x / m rounded up.
  function Ceil(x: nat, m: nat): nat
    requires m > 0
  {
    Quot(x, m) + if Rem(x, m) > 0 then 1 else 0
  }

  // max to the power d.
  function Pow(m: nat, d: nat): nat {
    if d == 0 then 1 else Times(Pow(m, d - 1), m)
  }

  function Min(a: nat, b: nat): nat {
    if a < b then a else b
  }

  // ---- The tree -------------------------------------------------------------------------------------

  // The directories made below base, at distance depth from the directories that hold the files, when
  // r files are still to be placed ...
  function Dirs(m: nat, base: Path, depth: nat, r: nat): seq<Path>
    decreases depth, 0, 0
  {
    if depth == 0 then [] else DirsFrom(m, base, depth, r, 0)
  }

  // ... and those from number i on.
  function DirsFrom(m: nat, base: Path, depth: nat, r: nat, i: nat): seq<Path>
    requires depth > 0
    decreases depth - 1, 1, m - i
  {
    if i >= m || r == 0 then []
    else [base + [i]] + Dirs(m, base + [i], depth - 1, r)
         + DirsFrom(m, base, depth, r - Min(r, Pow(m, depth)), i + 1)
  }

  // The files, likewise.
  function Files(m: nat, base: Path, depth: nat, r: nat): seq<Path>
    decreases depth, 1, 0
  {
    FilesFrom(m, base, depth, r, 0)
  }

  function FilesFrom(m: nat, base: Path, depth: nat, r: nat, i: nat): seq<Path>
    decreases depth, 0, m - i
  {
    if i >= m || r == 0 then []
    else if depth == 0 then [base + [i]] + FilesFrom(m, base, 0, r - 1, i + 1)
    else Files(m, base + [i], depth - 1, r) + FilesFrom(m, base, depth, r - Min(r, Pow(m, depth)), i + 1)
  }

  // ---- How many -------------------------------------------------------------------------------------

  // The first d numbers of the sequence x / m, x / m / m, ..., always rounded up, added.
  function Levels(m: nat, x: nat, d: nat): nat
    requires m > 0
    decreases d
  {
    if d == 0 then 0 else Ceil(x, m) + Levels(m, Ceil(x, m), d - 1)
  }

  // The last of them.
  function Level(m: nat, x: nat, d: nat): nat
    requires m > 0
    decreases d
  {
    if d == 0 then x else Level(m, Ceil(x, m), d - 1)
  }

  lemma {:induction false} LevelsNext(m: nat, x: nat, d: nat)
    requires m > 0
    ensures Levels(m, x, d + 1) == Levels(m, x, d) + Level(m, x, d + 1)
    ensures Level(m, x, d + 1) == Ceil(Level(m, x, d), m)
    decreases d
  {
    if d > 0 {
      LevelsNext(m, Ceil(x, m), d - 1);
    }
  }

  lemma {:induction false} QuotAdd(q: nat, t: nat, m: nat)
    requires m > 0
    ensures Quot(Times(q, m) + t, m) == q + Quot(t, m) && Rem(Times(q, m) + t, m) == Rem(t, m)
  {
    if q > 0 {
      QuotAdd(q - 1, t, m);
    }
  }

  // A full subtree adds its own levels.
  lemma {:induction false} LevelsAdd(m: nat, d: nat, t: nat)
    requires m > 0
    ensures Levels(m, Pow(m, d) + t, d) == Levels(m, Pow(m, d), d) + Levels(m, t, d)
  {
    if d > 0 {
      QuotAdd(Pow(m, d - 1), t, m);
      QuotAdd(Pow(m, d - 1), 0, m);
      LevelsAdd(m, d - 1, Ceil(t, m));
    }
  }

  lemma {:induction false} CeilMonotone(x: nat, q: nat, m: nat)
    requires m > 0
    ensures Ceil(x, m) <= q <==> x <= Times(q, m)
  {
    if q > 0 && x >= m {
      CeilMonotone(x - m, q - 1, m);
    }
  }

  // It takes d steps to get to 1 if and only if max to the power d is enough.
  lemma {:induction false} LevelIsOne(m: nat, x: nat, d: nat)
    requires m > 0 && x > 0
    ensures Level(m, x, d) >= 1 && (Level(m, x, d) == 1 <==> x <= Pow(m, d))
    decreases d
  {
    if d > 0 {
      LevelIsOne(m, Ceil(x, m), d - 1);
      CeilMonotone(x, Pow(m, d - 1), m);
      CeilMonotone(x, 0, m);
    }
  }

  lemma {:induction false} LevelsOfNothing(m: nat, d: nat)
    requires m > 0
    ensures Levels(m, 0, d) == 0
  {
    if d > 0 {
      LevelsOfNothing(m, d - 1);
    }
  }

  lemma {:induction false} PowPositive(m: nat, d: nat)
    requires m > 0
    ensures Pow(m, d) > 0
  {
    if d > 0 {
      PowPositive(m, d - 1);
      TimesMonotone(1, Pow(m, d - 1), m);
    }
  }

  /** A directory at distance depth takes as many files as are left, and as a full tree can hold. */
  lemma {:induction false} FilesLength(m: nat, base: Path, depth: nat, r: nat)
    requires m > 0
    ensures |Files(m, base, depth, r)| == Min(r, Pow(m, depth + 1))
    decreases depth, 1, 0
  {
    FilesFromLength(m, base, depth, r, 0);
    TimesIsProduct(m, Pow(m, depth));
    TimesIsProduct(Pow(m, depth), m);
  }

  lemma {:induction false} FilesFromLength(m: nat, base: Path, depth: nat, r: nat, i: nat)
    requires m > 0 && i <= m
    ensures |FilesFrom(m, base, depth, r, i)| == Min(r, Times(m - i, Pow(m, depth)))
    decreases depth, 0, m - i
  {
    if i < m && r > 0 {
      PowPositive(m, depth);
      if depth == 0 {
        FilesFromLength(m, base, 0, r - 1, i + 1);
      } else {
        FilesLength(m, base + [i], depth - 1, r);
        FilesFromLength(m, base, depth, r - Min(r, Pow(m, depth)), i + 1);
      }
    }
  }

  /** It makes as many directories as setup_names counts. */
  lemma {:induction false} DirsLength(m: nat, base: Path, depth: nat, r: nat)
    requires m > 0
    ensures |Dirs(m, base, depth, r)| == Levels(m, Min(r, Pow(m, depth + 1)), depth)
    decreases depth, 0, 0
  {
    if depth > 0 {
      DirsFromLength(m, base, depth, r, 0);
      TimesIsProduct(m, Pow(m, depth));
      TimesIsProduct(Pow(m, depth), m);
    }
  }

  lemma {:induction false} DirsFromLength(m: nat, base: Path, depth: nat, r: nat, i: nat)
    requires m > 0 && i <= m && depth > 0
    ensures |DirsFrom(m, base, depth, r, i)| == Levels(m, Min(r, Times(m - i, Pow(m, depth))), depth)
    decreases depth - 1, 1, m - i
  {
    LevelsOfNothing(m, depth);
    if i < m && r > 0 {
      var p := Pow(m, depth);
      PowPositive(m, depth);
      DirsLength(m, base + [i], depth - 1, r);
      DirsFromLength(m, base, depth, r - Min(r, p), i + 1);
      OneMore(m, depth, r, Times(m - i - 1, p));
    }
  }

  // The directory for an entry, what is in it, and the entries after it.
  lemma OneMore(m: nat, depth: nat, r: nat, room: nat)
    requires m > 0 && depth > 0 && r > 0
    ensures var p := Pow(m, depth);
            1 + Levels(m, Min(r, p), depth - 1) + Levels(m, Min(r - Min(r, p), room), depth)
            == Levels(m, Min(r, p + room), depth)
  {
    var p := Pow(m, depth);
    PowPositive(m, depth);
    LevelsOfNothing(m, depth);
    LevelIsOne(m, Min(r, p), depth);
    LevelsNext(m, Min(r, p), depth - 1);
    if r > p {
      LevelsAdd(m, depth, Min(r - p, room));
    }
  }
}
