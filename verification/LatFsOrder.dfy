/** The order of the directory tree of lat_fs.c: parents come before what they contain. */
module LatFsOrder {
  import opened Arith
  import opened LatFsTree

  function Parent(p: Path): Path
    requires p != []
  {
    p[..|p| - 1]
  }

  // p is below base, through entry number i of base or a later one, at most depth levels down, and the
  // last entry on the way is one of max.
  predicate Under(p: Path, base: Path, i: nat, m: nat, depth: nat) {
    |base| < |p| <= |base| + depth && p[..|base|] == base && i <= p[|base|] && p[|p| - 1] < m
  }

  predicate Prefix(p: Path, q: Path) {
    |p| <= |q| && q[..|p|] == p
  }

  // No entry comes before one that contains it, and none is there twice.
  ghost predicate ParentsFirst(s: seq<Path>) {
    forall j, k :: 0 <= j < k < |s| ==> !Prefix(s[k], s[j])
  }

  lemma UnderChild(p: Path, base: Path, i: nat, m: nat, depth: nat)
    requires Under(p, base + [i], 0, m, depth)
    ensures Under(p, base, i, m, depth + 1) && p[|base|] == i
  {
    assert p[..|base|] == p[..|base + [i]|][..|base|];
    assert p[|base|] == p[..|base + [i]|][|base|];
  }

  // ---- Directories ------------------------------------------------------------------------------------

  lemma {:induction false} DirsUnder(m: nat, base: Path, depth: nat, r: nat, p: Path)
    requires p in Dirs(m, base, depth, r)
    ensures Under(p, base, 0, m, depth)
    decreases depth, 0, 0
  {
    DirsFromUnder(m, base, depth, r, 0, p);
  }

  lemma {:induction false} DirsFromUnder(m: nat, base: Path, depth: nat, r: nat, i: nat, p: Path)
    requires depth > 0 && p in DirsFrom(m, base, depth, r, i)
    ensures Under(p, base, i, m, depth)
    decreases depth - 1, 1, m - i
  {
    if p in Dirs(m, base + [i], depth - 1, r) {
      DirsUnder(m, base + [i], depth - 1, r, p);
      UnderChild(p, base, i, m, depth - 1);
    } else if p != base + [i] {
      DirsFromUnder(m, base, depth, r - Min(r, Pow(m, depth)), i + 1, p);
    }
  }

  // The directory that holds a directory is there too.
  lemma {:induction false} DirsParents(m: nat, base: Path, depth: nat, r: nat, p: Path)
    requires p in Dirs(m, base, depth, r)
    ensures p != [] && (Parent(p) == base || Parent(p) in Dirs(m, base, depth, r))
    decreases depth, 0, 0
  {
    DirsFromParents(m, base, depth, r, 0, p);
  }

  lemma {:induction false} DirsFromParents(m: nat, base: Path, depth: nat, r: nat, i: nat, p: Path)
    requires depth > 0 && p in DirsFrom(m, base, depth, r, i)
    ensures p != [] && (Parent(p) == base || Parent(p) in DirsFrom(m, base, depth, r, i))
    decreases depth - 1, 1, m - i
  {
    if p in Dirs(m, base + [i], depth - 1, r) {
      DirsParents(m, base + [i], depth - 1, r, p);
    } else if p != base + [i] {
      DirsFromParents(m, base, depth, r - Min(r, Pow(m, depth)), i + 1, p);
    }
  }

  lemma {:induction false} DirsParentsFirst(m: nat, base: Path, depth: nat, r: nat)
    ensures ParentsFirst(Dirs(m, base, depth, r))
    decreases depth, 0, 0
  {
    if depth > 0 {
      DirsFromParentsFirst(m, base, depth, r, 0);
    }
  }

  lemma {:induction false} DirsFromParentsFirst(m: nat, base: Path, depth: nat, r: nat, i: nat)
    requires depth > 0
    ensures ParentsFirst(DirsFrom(m, base, depth, r, i))
    decreases depth - 1, 1, m - i
  {
    if i < m && r > 0 {
      var x := Dirs(m, base + [i], depth - 1, r);
      var y := DirsFrom(m, base, depth, r - Min(r, Pow(m, depth)), i + 1);
      DirsParentsFirst(m, base + [i], depth - 1, r);
      DirsFromParentsFirst(m, base, depth, r - Min(r, Pow(m, depth)), i + 1);
      forall p | p in x
        ensures Under(p, base + [i], 0, m, depth - 1) && Under(p, base, i, m, depth) && p[|base|] == i
      {
        DirsUnder(m, base + [i], depth - 1, r, p);
        UnderChild(p, base, i, m, depth - 1);
      }
      forall p | p in y
        ensures Under(p, base, i + 1, m, depth)
      {
        DirsFromUnder(m, base, depth, r - Min(r, Pow(m, depth)), i + 1, p);
      }
      var z := [base + [i]] + x;
      forall p | p in z
        ensures |p| > |base| && p[|base|] == i
      {
        assert p in x || p == base + [i];
      }
      TwoParts(base, i, z, y);
    }
  }

  lemma TwoParts(base: Path, i: nat, x: seq<Path>, y: seq<Path>)
    requires ParentsFirst(x) && ParentsFirst(y)
    requires forall p :: p in x ==> |p| > |base| && p[|base|] == i
    requires forall p :: p in y ==> |p| > |base| && p[|base|] > i
    ensures ParentsFirst(x + y)
  {
    var s := x + y;
    forall j, k | 0 <= j < k < |s|
      ensures !Prefix(s[k], s[j])
    {
      if k >= |x| > j {
        assert s[k] in y && s[j] in x;
      }
    }
  }

  // ---- Files ------------------------------------------------------------------------------------------

  lemma {:induction false} FilesUnder(m: nat, base: Path, depth: nat, r: nat, p: Path)
    requires p in Files(m, base, depth, r)
    ensures Under(p, base, 0, m, depth + 1) && |p| == |base| + depth + 1
    ensures Parent(p) == base || Parent(p) in Dirs(m, base, depth, r)
    decreases depth, 1, 0
  {
    FilesFromUnder(m, base, depth, r, 0, p);
  }

  lemma {:induction false} FilesFromUnder(m: nat, base: Path, depth: nat, r: nat, i: nat, p: Path)
    requires p in FilesFrom(m, base, depth, r, i)
    ensures Under(p, base, i, m, depth + 1) && |p| == |base| + depth + 1
    ensures depth == 0 ==> Parent(p) == base
    ensures depth > 0 ==> Parent(p) in DirsFrom(m, base, depth, r, i)
    decreases depth, 0, m - i
  {
    if depth == 0 {
      if p != base + [i] {
        FilesFromUnder(m, base, 0, r - 1, i + 1, p);
      }
    } else if p in Files(m, base + [i], depth - 1, r) {
      FilesUnder(m, base + [i], depth - 1, r, p);
      UnderChild(p, base, i, m, depth);
    } else {
      FilesFromUnder(m, base, depth, r - Min(r, Pow(m, depth)), i + 1, p);
    }
  }

  lemma {:induction false} FilesDistinct(m: nat, base: Path, depth: nat, r: nat)
    ensures ParentsFirst(Files(m, base, depth, r))
    decreases depth, 1, 0
  {
    FilesFromDistinct(m, base, depth, r, 0);
  }

  lemma {:induction false} FilesFromDistinct(m: nat, base: Path, depth: nat, r: nat, i: nat)
    ensures ParentsFirst(FilesFrom(m, base, depth, r, i))
    decreases depth, 0, m - i
  {
    if i < m && r > 0 {
      if depth == 0 {
        FilesFromDistinct(m, base, 0, r - 1, i + 1);
        FilesAfter(m, base, 0, r - 1, i + 1);
        TwoParts(base, i, [base + [i]], FilesFrom(m, base, 0, r - 1, i + 1));
      } else {
        var r' := r - Min(r, Pow(m, depth));
        FilesDistinct(m, base + [i], depth - 1, r);
        FilesFromDistinct(m, base, depth, r', i + 1);
        FilesThrough(m, base, depth, r, i);
        FilesAfter(m, base, depth, r', i + 1);
        TwoParts(base, i, Files(m, base + [i], depth - 1, r), FilesFrom(m, base, depth, r', i + 1));
      }
    }
  }

  // The files of one entry, and those of the later ones.
  lemma FilesThrough(m: nat, base: Path, depth: nat, r: nat, i: nat)
    requires depth > 0
    ensures forall p :: p in Files(m, base + [i], depth - 1, r) ==> |p| > |base| && p[|base|] == i
  {
    forall p | p in Files(m, base + [i], depth - 1, r)
      ensures |p| > |base| && p[|base|] == i
    {
      FilesUnder(m, base + [i], depth - 1, r, p);
      UnderChild(p, base, i, m, depth);
    }
  }

  lemma FilesAfter(m: nat, base: Path, depth: nat, r: nat, i: nat)
    ensures forall p :: p in FilesFrom(m, base, depth, r, i) ==> |p| > |base| && p[|base|] >= i
  {
    forall p | p in FilesFrom(m, base, depth, r, i)
      ensures |p| > |base| && p[|base|] >= i
    {
      FilesFromUnder(m, base, depth, r, i, p);
    }
  }

  // ---- What the files are called ------------------------------------------------------------------------

  // The number that the entries of a path make, as digits in base m, after the ones of base.
  function Number(m: nat, base: Path, p: Path): nat
    decreases |p|
  {
    if |p| <= |base| then 0 else Times(Number(m, base, Parent(p)), m) + p[|p| - 1]
  }

  // Each entry on the way down is one of max.
  predicate Digits(m: nat, base: Path, p: Path) {
    forall k :: |base| <= k < |p| ==> p[k] < m
  }

  // One more entry at the front.
  lemma {:induction false} NumberThrough(m: nat, base: Path, i: nat, p: Path)
    requires |p| > |base| && p[..|base| + 1] == base + [i]
    ensures Number(m, base, p) == Times(i, Pow(m, |p| - |base| - 1)) + Number(m, base + [i], p)
    decreases |p|
  {
    if |p| == |base| + 1 {
      assert p == base + [i];
      assert Number(m, base, Parent(p)) == 0;
      TimesIsProduct(i, 1);
    } else {
      var n := |p| - |base| - 1;
      assert Parent(p)[..|base| + 1] == base + [i];
      NumberThrough(m, base, i, Parent(p));
      TimesAdd(Times(i, Pow(m, n - 1)), Number(m, base + [i], Parent(p)), m);
      TimesTimes(i, Pow(m, n - 1), m);
    }
  }

  /** The files of a tree are numbered through: the entries on the way to file k are the digits of k. */
  lemma {:induction false} FileIsNumber(m: nat, base: Path, depth: nat, r: nat, k: nat)
    requires m > 0 && k < |Files(m, base, depth, r)|
    ensures Digits(m, base, Files(m, base, depth, r)[k]) && Number(m, base, Files(m, base, depth, r)[k]) == k
    decreases depth, 1, 0
  {
    FileFromIsNumber(m, base, depth, r, 0, k);
  }

  lemma {:induction false} FileFromIsNumber(m: nat, base: Path, depth: nat, r: nat, i: nat, k: nat)
    requires m > 0 && i <= m && k < |FilesFrom(m, base, depth, r, i)|
    ensures var p := FilesFrom(m, base, depth, r, i)[k];
            Digits(m, base, p) && Number(m, base, p) == Times(i, Pow(m, depth)) + k
    decreases depth, 0, m - i
  {
    var p := FilesFrom(m, base, depth, r, i)[k];
    if depth == 0 {
      TimesIsProduct(i, 1);
      if k == 0 {
        LastEntry(m, base, i);
      } else {
        FileFromIsNumber(m, base, 0, r - 1, i + 1, k - 1);
        TimesIsProduct(i + 1, 1);
      }
    } else {
      var here, r' := Files(m, base + [i], depth - 1, r), r - Min(r, Pow(m, depth));
      FilesLength(m, base + [i], depth - 1, r);
      if k < |here| {
        FileIsNumber(m, base + [i], depth - 1, r, k);
        FilesUnder(m, base + [i], depth - 1, r, here[k]);
        assert p == here[k] && p[..|base| + 1] == base + [i];
        NumberThrough(m, base, i, p);
      } else {
        FileFromIsNumber(m, base, depth, r', i + 1, k - |here|);
      }
    }
  }

  lemma LastEntry(m: nat, base: Path, i: nat)
    ensures Number(m, base, base + [i]) == i
  {
    assert Parent(base + [i]) == base;
  }

  // ---- No directory is empty ----------------------------------------------------------------------------

  /** Every directory that is made holds a file, or a directory that does. */
  lemma {:induction false} DirsHoldFiles(m: nat, base: Path, depth: nat, r: nat, p: Path)
    requires m > 0 && p in Dirs(m, base, depth, r)
    ensures exists f :: f in Files(m, base, depth, r) && Prefix(p, f)
    decreases depth, 0, 0
  {
    DirsFromHoldFiles(m, base, depth, r, 0, p);
  }

  lemma {:induction false} DirsFromHoldFiles(m: nat, base: Path, depth: nat, r: nat, i: nat, p: Path)
    requires m > 0 && depth > 0 && p in DirsFrom(m, base, depth, r, i)
    ensures exists f :: f in FilesFrom(m, base, depth, r, i) && Prefix(p, f)
    decreases depth - 1, 1, m - i
  {
    var here, r' := Files(m, base + [i], depth - 1, r), r - Min(r, Pow(m, depth));
    if p == base + [i] {
      FilesLength(m, base + [i], depth - 1, r);
      PowPositive(m, depth);
      FilesUnder(m, base + [i], depth - 1, r, here[0]);
      assert here[0] in FilesFrom(m, base, depth, r, i) && Prefix(p, here[0]);
    } else if p in Dirs(m, base + [i], depth - 1, r) {
      DirsHoldFiles(m, base + [i], depth - 1, r, p);
      var f :| f in here && Prefix(p, f);
      assert f in FilesFrom(m, base, depth, r, i);
    } else {
      DirsFromHoldFiles(m, base, depth, r', i + 1, p);
      var f :| f in FilesFrom(m, base, depth, r', i + 1) && Prefix(p, f);
      assert f in FilesFrom(m, base, depth, r, i);
    }
  }
}
