/** The weighted linear regression of lib_stats.c, with exact real numbers for doubles. */
module Regression {

  datatype Option<T> = None | Some(value: T)

  // A point (x, y) and u = 1 / sig, the weight of its error.
  datatype Point = Point(x: real, y: real, u: real)

  function Square(r: real): real {
    r * r
  }

  // How far the line a + b x misses the point, in units of sig.
  function Miss(p: Point, a: real, b: real): real {
    p.u * (p.y - (a + b * p.x))
  }

  function Chi2(ps: seq<Point>, a: real, b: real): real {
    if ps == [] then 0.0 else Chi2(ps[..|ps| - 1], a, b) + Square(Miss(ps[|ps| - 1], a, b))
  }

  // The sums of weights, of weighted values and of weighted products.
  datatype Moments = Moments(s: real, sx: real, sy: real, sxx: real, sxy: real)

  function MomentsOf(ps: seq<Point>): Moments {
    if ps == [] then Moments(0.0, 0.0, 0.0, 0.0, 0.0) else Added(MomentsOf(ps[..|ps| - 1]), ps[|ps| - 1])
  }

  function Added(m: Moments, p: Point): Moments {
    var w := p.u * p.u;
    Moments(m.s + w, m.sx + w * p.x, m.sy + w * p.y, m.sxx + w * p.x * p.x, m.sxy + w * p.x * p.y)
  }

  // Equations 15.2.16 and 15.2.17: sums of squares of t, and of t times y, around the mean c.
  function Stt(ps: seq<Point>, c: real): real {
    if ps == [] then 0.0 else Stt(ps[..|ps| - 1], c) + SttOf(ps[|ps| - 1], c)
  }

  function Sty(ps: seq<Point>, c: real): real {
    if ps == [] then 0.0 else Sty(ps[..|ps| - 1], c) + StyOf(ps[|ps| - 1], c)
  }

  function SttOf(p: Point, c: real): real {
    Square(p.u * (p.x - c))
  }

  function StyOf(p: Point, c: real): real {
    p.u * (p.x - c) * p.y * p.u
  }

  // The two normal equations say that these are 0.
  function Normal1(m: Moments, a: real, b: real): real {
    m.sy - a * m.s - b * m.sx
  }

  function Normal2(m: Moments, a: real, b: real): real {
    m.sxy - a * m.sx - b * m.sxx
  }

  // All points have a weight, and they are not all above each other.
  predicate Weighted(ps: seq<Point>) {
    ps != [] && forall i :: 0 <= i < |ps| ==> ps[i].u != 0.0
  }

  predicate SameX(ps: seq<Point>) {
    forall i, j :: 0 <= i < j < |ps| ==> ps[i].x == ps[j].x
  }

  // ---- Sums in terms of moments ---------------------------------------------------------------------

  function SttBy(m: Moments, c: real): real {
    m.sxx - 2.0 * c * m.sx + c * c * m.s
  }

  function StyBy(m: Moments, c: real): real {
    m.sxy - c * m.sy
  }

  predicate IsStt(stt: real, m: Moments, c: real) {
    stt == SttBy(m, c)
  }

  predicate IsSty(sty: real, m: Moments, c: real) {
    sty == StyBy(m, c)
  }

  lemma SttTerm(u: real, x: real, c: real)
    ensures Square(u * (x - c)) == u * u * x * x - 2.0 * c * (u * u * x) + c * c * (u * u)
  {
  }

  lemma SttAdded(stt: real, m: Moments, p: Point, c: real)
    requires IsStt(stt, m, c)
    ensures IsStt(stt + SttOf(p, c), Added(m, p), c)
  {
    SttTerm(p.u, p.x, c);
    Adds(m.sx, p.u * p.u * p.x, 2.0 * c);
    Adds(m.s, p.u * p.u, c * c);
  }

  lemma StyAdded(sty: real, m: Moments, p: Point, c: real)
    requires IsSty(sty, m, c)
    ensures IsSty(sty + StyOf(p, c), Added(m, p), c)
  {
    var w := p.u * p.u;
    assert p.u * (p.x - c) * p.y * p.u == w * p.x * p.y - c * (w * p.y);
    Adds(m.sy, w * p.y, c);
  }

  lemma Adds(x: real, y: real, a: real)
    ensures a * (x + y) == a * x + a * y
  {
  }

  lemma {:induction false} SttMoments(ps: seq<Point>, c: real)
    ensures IsStt(Stt(ps, c), MomentsOf(ps), c)
  {
    if ps != [] {
      SttMoments(ps[..|ps| - 1], c);
      SttAdded(Stt(ps[..|ps| - 1], c), MomentsOf(ps[..|ps| - 1]), ps[|ps| - 1], c);
    }
  }

  lemma {:induction false} StyMoments(ps: seq<Point>, c: real)
    ensures IsSty(Sty(ps, c), MomentsOf(ps), c)
  {
    if ps != [] {
      StyMoments(ps[..|ps| - 1], c);
      StyAdded(Sty(ps[..|ps| - 1], c), MomentsOf(ps[..|ps| - 1]), ps[|ps| - 1], c);
    }
  }

  // ---- Another line -----------------------------------------------------------------------------------

  // The squared distances, in units of sig, between the line and one that differs by da and db.
  function Between(ps: seq<Point>, da: real, db: real): real {
    if ps == [] then 0.0 else Between(ps[..|ps| - 1], da, db) + Gap(ps[|ps| - 1], da, db)
  }

  function Gap(p: Point, da: real, db: real): real {
    Square(p.u * (da + db * p.x))
  }

  function Cross(d: real, n: real): real {
    2.0 * d * n
  }

  // What a point adds to the normal equations.
  function Part1(p: Point, a: real, b: real): real {
    var w := p.u * p.u;
    w * p.y - a * w - b * (w * p.x)
  }

  function Part2(p: Point, a: real, b: real): real {
    var w := p.u * p.u;
    w * p.x * p.y - a * (w * p.x) - b * (w * p.x * p.x)
  }

  lemma NormalAdded(m: Moments, p: Point, a: real, b: real)
    ensures Normal1(Added(m, p), a, b) == Normal1(m, a, b) + Part1(p, a, b)
    ensures Normal2(Added(m, p), a, b) == Normal2(m, a, b) + Part2(p, a, b)
  {
    var w := p.u * p.u;
    Adds(m.s, w, a);
    Adds(m.sx, w * p.x, a);
    Adds(m.sx, w * p.x, b);
    Adds(m.sxx, w * p.x * p.x, b);
  }

  // chi' in terms of chi: what the normal equations say, and how far the lines are apart.
  predicate IsOther(chi': real, chi: real, n1: real, n2: real, between: real, da: real, db: real) {
    chi' == chi - Cross(da, n1) - Cross(db, n2) + between
  }

  lemma MissTerm(p: Point, a: real, b: real, da: real, db: real)
    ensures IsOther(Square(Miss(p, a + da, b + db)), Square(Miss(p, a, b)), Part1(p, a, b), Part2(p, a, b),
                    Gap(p, da, db), da, db)
  {
    var e, d := p.y - (a + b * p.x), da + db * p.x;
    assert Miss(p, a + da, b + db) == p.u * (e - d);
    assert Square(p.u * (e - d)) == Square(p.u * e) - 2.0 * (p.u * p.u * e * d) + Square(p.u * d);
    assert p.u * p.u * e * d == da * (p.u * p.u * e) + db * (p.u * p.u * p.x * e);
  }

  lemma {:induction false} Chi2OfOther(ps: seq<Point>, a: real, b: real, da: real, db: real)
    ensures IsOther(Chi2(ps, a + da, b + db), Chi2(ps, a, b), Normal1(MomentsOf(ps), a, b), Normal2(MomentsOf(ps), a, b),
                    Between(ps, da, db), da, db)
  {
    if ps != [] {
      var rest, p := ps[..|ps| - 1], ps[|ps| - 1];
      var m := MomentsOf(rest);
      Chi2OfOther(rest, a, b, da, db);
      MissTerm(p, a, b, da, db);
      NormalAdded(m, p, a, b);
      OthersAdd(Chi2(rest, a + da, b + db), Chi2(rest, a, b), Normal1(m, a, b), Normal2(m, a, b), Between(rest, da, db),
                Square(Miss(p, a + da, b + db)), Square(Miss(p, a, b)), Part1(p, a, b), Part2(p, a, b),
                Gap(p, da, db), da, db,
                Chi2(ps, a + da, b + db), Chi2(ps, a, b),
                Normal1(MomentsOf(ps), a, b), Normal2(MomentsOf(ps), a, b), Between(ps, da, db));
    }
  }

  lemma OthersAdd(chi': real, chi: real, n1: real, n2: real, between: real,
                  t': real, t: real, z1: real, z2: real, d: real, da: real, db: real,
                  sum': real, sum: real, s1: real, s2: real, apart: real)
    requires IsOther(chi', chi, n1, n2, between, da, db) && IsOther(t', t, z1, z2, d, da, db)
    requires sum' == chi' + t' && sum == chi + t && s1 == n1 + z1 && s2 == n2 + z2 && apart == between + d
    ensures IsOther(sum', sum, s1, s2, apart, da, db)
  {
    Adds(n1, z1, 2.0 * da);
    Adds(n2, z2, 2.0 * db);
  }

  lemma {:induction false} BetweenNonneg(ps: seq<Point>, da: real, db: real)
    ensures Between(ps, da, db) >= 0.0
  {
    if ps != [] {
      BetweenNonneg(ps[..|ps| - 1], da, db);
      var p := ps[|ps| - 1];
      SquareNonneg(p.u * (da + db * p.x));
    }
  }

  lemma {:induction false} BetweenZeroAt(ps: seq<Point>, da: real, db: real, i: nat)
    requires Between(ps, da, db) == 0.0 && i < |ps| && ps[i].u != 0.0
    ensures da + db * ps[i].x == 0.0
  {
    var rest, p := ps[..|ps| - 1], ps[|ps| - 1];
    BetweenNonneg(rest, da, db);
    SquareNonneg(p.u * (da + db * p.x));
    if i < |rest| {
      BetweenZeroAt(rest, da, db, i);
    } else {
      NoProduct(p.u, da + db * p.x);
    }
  }

  lemma SquareNonneg(r: real)
    ensures Square(r) >= 0.0 && (Square(r) == 0.0 <==> r == 0.0)
  {
    if r != 0.0 && Square(r) == 0.0 {
      NoProduct(r, r);
    }
  }

  // Two different lines differ somewhere, unless all points are above each other.
  lemma BetweenZero(ps: seq<Point>, da: real, db: real)
    requires Weighted(ps) && !SameX(ps) && Between(ps, da, db) == 0.0
    ensures da == 0.0 && db == 0.0
  {
    var i, j :| 0 <= i < j < |ps| && ps[i].x != ps[j].x;
    BetweenZeroAt(ps, da, db, i);
    BetweenZeroAt(ps, da, db, j);
    TwoPoints(ps[i].x, ps[j].x, da, db);
  }

  lemma TwoPoints(x: real, x': real, da: real, db: real)
    requires x != x' && da + db * x == 0.0 && da + db * x' == 0.0
    ensures da == 0.0 && db == 0.0
  {
    assert (x - x') * db == 0.0;
    NoProduct(x - x', db);
  }

  lemma NoProduct(u: real, v: real)
    requires u != 0.0 && u * v == 0.0
    ensures v == 0.0
  {
    assert v == 1.0 / u * (u * v);
  }

  /** A line that satisfies the normal equations fits better than any other. */
  lemma BestFit(ps: seq<Point>, a: real, b: real, a': real, b': real)
    requires Weighted(ps) && !SameX(ps)
    requires Normal1(MomentsOf(ps), a, b) == 0.0 && Normal2(MomentsOf(ps), a, b) == 0.0
    ensures Chi2(ps, a', b') >= Chi2(ps, a, b)
    ensures Chi2(ps, a', b') == Chi2(ps, a, b) <==> a' == a && b' == b
  {
    Chi2OfOther(ps, a, b, a' - a, b' - b);
    BetweenNonneg(ps, a' - a, b' - b);
    if Between(ps, a' - a, b' - b) == 0.0 {
      BetweenZero(ps, a' - a, b' - b);
    }
  }

  // ---- When the equations can be solved ---------------------------------------------------------------

  lemma {:induction false} WeightPositive(ps: seq<Point>)
    requires Weighted(ps)
    ensures MomentsOf(ps).s > 0.0
  {
    SquareNonneg(ps[|ps| - 1].u);
    if |ps| > 1 {
      WeightPositive(ps[..|ps| - 1]);
    }
  }

  // Stt is what moving the line by c and turning it by 1 changes.
  lemma {:induction false} SttIsBetween(ps: seq<Point>, c: real)
    ensures Stt(ps, c) == Between(ps, -c, 1.0)
  {
    if ps != [] {
      SttIsBetween(ps[..|ps| - 1], c);
      assert -c + 1.0 * ps[|ps| - 1].x == ps[|ps| - 1].x - c;
    }
  }

  predicate IsMean(x: real, m: Moments) {
    m.sx == m.s * x
  }

  lemma IsMeanAdded(x: real, m: Moments, p: Point)
    requires IsMean(x, m) && p.x == x
    ensures IsMean(x, Added(m, p))
  {
    Adds(m.s, p.u * p.u, x);
  }

  lemma {:induction false} MeanOfSame(ps: seq<Point>, x: real)
    requires forall i :: 0 <= i < |ps| ==> ps[i].x == x
    ensures IsMean(x, MomentsOf(ps)) && Stt(ps, x) == 0.0
  {
    if ps != [] {
      MeanOfSame(ps[..|ps| - 1], x);
      IsMeanAdded(x, MomentsOf(ps[..|ps| - 1]), ps[|ps| - 1]);
      NothingOf(ps[|ps| - 1], x);
    }
  }

  lemma NothingOf(p: Point, c: real)
    requires p.x == c
    ensures SttOf(p, c) == 0.0
  {
  }

  /** regression can divide by Stt if and only if the points are not all above each other. */
  lemma SttZeroIff(ps: seq<Point>)
    requires Weighted(ps)
    ensures MomentsOf(ps).s > 0.0
    ensures Stt(ps, MomentsOf(ps).sx / MomentsOf(ps).s) == 0.0 <==> SameX(ps)
  {
    WeightPositive(ps);
    var c := MomentsOf(ps).sx / MomentsOf(ps).s;
    if SameX(ps) {
      MeanOfSame(ps, ps[0].x);
      assert c == ps[0].x;
    } else {
      SttIsBetween(ps, c);
      if Stt(ps, c) == 0.0 {
        BetweenZero(ps, -c, 1.0);
      }
    }
  }

  // a + b x satisfies the normal equations, and chi2 is its merit.
  predicate Fits(ps: seq<Point>, a: real, b: real, chi2: real) {
    Normal1(MomentsOf(ps), a, b) == 0.0 && Normal2(MomentsOf(ps), a, b) == 0.0 && chi2 == Chi2(ps, a, b)
  }

  predicate IsQuotient(q: real, x: real, y: real) {
    y != 0.0 && q * y == x
  }

  lemma Divided(x: real, y: real, q: real)
    requires y != 0.0 && q == x / y
    ensures IsQuotient(q, x, y)
  {
  }

  // The first three sums.
  datatype Sums = Sums(s: real, sx: real, sy: real)

  function FirstSums(m: Moments): Sums {
    Sums(m.s, m.sx, m.sy)
  }

  function SumsOf(ps: seq<Point>): Sums {
    FirstSums(MomentsOf(ps))
  }

  function SumsAdded(t: Sums, w: real, x: real, y: real): Sums {
    Sums(t.s + w, t.sx + w * x, t.sy + w * y)
  }

  /** The b and a that regression computes satisfy the normal equations. */
  lemma Solves(ps: seq<Point>, S: real, Sx: real, Sy: real, c: real, stt: real, sty: real, a: real, b: real)
    requires SumsOf(ps) == Sums(S, Sx, Sy) && stt == Stt(ps, c) && sty == Sty(ps, c)
    requires IsQuotient(c, Sx, S) && IsQuotient(b, sty, stt) && IsQuotient(a, Sy - b * Sx, S)
    ensures Fits(ps, a, b, Chi2(ps, a, b))
  {
    var m := Moments(S, Sx, Sy, MomentsOf(ps).sxx, MomentsOf(ps).sxy);
    assert m == MomentsOf(ps);
    SttMoments(ps, c);
    StyMoments(ps, c);
    Eliminate(m, c, a, b);
  }

  lemma Eliminate(m: Moments, c: real, a: real, b: real)
    requires m.s != 0.0 && c * m.s == m.sx && a * m.s == m.sy - b * m.sx
    requires b * SttBy(m, c) == StyBy(m, c)
    ensures Normal1(m, a, b) == 0.0 && Normal2(m, a, b) == 0.0
  {
    assert c * c * m.s == c * m.sx;
    assert a * m.sx == c * (a * m.s);
    assert b * (m.sxx - c * m.sx) == b * m.sxx - c * (b * m.sx);
    assert c * (m.sy - b * m.sx) == c * m.sy - c * (b * m.sx);
  }

  // ---- The function itself ----------------------------------------------------------------------------

  // 1 / sig[i], or 1 where no standard deviations are given.
  function Scale(sig: Option<seq<real>>, i: nat): real
    requires sig.Some? ==> i < |sig.value| && sig.value[i] != 0.0
  {
    if sig.Some? then 1.0 / sig.value[i] else 1.0
  }

  predicate Usable(x: seq<real>, y: seq<real>, sig: Option<seq<real>>) {
    && |x| == |y|
    && (sig.Some? ==> |sig.value| == |x| && forall i :: 0 <= i < |x| ==> sig.value[i] != 0.0)
  }

  function PointAt(x: seq<real>, y: seq<real>, sig: Option<seq<real>>, i: nat): (p: Point)
    requires Usable(x, y, sig) && i < |x|
    ensures p.u != 0.0
  {
    Point(x[i], y[i], Scale(sig, i))
  }

  function PointsOf(x: seq<real>, y: seq<real>, sig: Option<seq<real>>, n: nat): seq<Point>
    requires Usable(x, y, sig) && n <= |x|
  {
    if n == 0 then [] else PointsOf(x, y, sig, n - 1) + [PointAt(x, y, sig, n - 1)]
  }

  lemma {:induction false} PointsFacts(x: seq<real>, y: seq<real>, sig: Option<seq<real>>, n: nat)
    requires Usable(x, y, sig) && n <= |x|
    ensures |PointsOf(x, y, sig, n)| == n
    ensures forall i :: 0 <= i < n ==> PointsOf(x, y, sig, n)[i] == PointAt(x, y, sig, i)
  {
    if n > 0 {
      PointsFacts(x, y, sig, n - 1);
    }
  }

  lemma PointsNext(x: seq<real>, y: seq<real>, sig: Option<seq<real>>, n: nat)
    requires Usable(x, y, sig) && n < |x|
    ensures var ps := PointsOf(x, y, sig, n + 1);
            |ps| > 0 && ps[..|ps| - 1] == PointsOf(x, y, sig, n) && ps[|ps| - 1] == PointAt(x, y, sig, n)
  {
  }

  // Dividing by sig is multiplying by its inverse.
  lemma ByScale(sig: real, r: real)
    requires sig != 0.0
    ensures r / sig == 1.0 / sig * r && 1.0 / (sig * sig) == 1.0 / sig * (1.0 / sig)
  {
    assert 1.0 / sig * (1.0 / sig) * (sig * sig) == 1.0;
  }

  function WeightAt(sig: Option<seq<real>>, i: nat): real
    requires sig.Some? ==> i < |sig.value| && sig.value[i] != 0.0
  {
    1.0 / if sig.Some? then sig.value[i] * sig.value[i] else 1.0
  }

  lemma WeightIs(sig: Option<seq<real>>, i: nat)
    requires sig.Some? ==> i < |sig.value| && sig.value[i] != 0.0
    ensures WeightAt(sig, i) == Scale(sig, i) * Scale(sig, i)
  {
    if sig.Some? {
      ByScale(sig.value[i], 1.0);
    }
  }

  lemma AddedBy(m: Moments, x: real, y: real, u: real, weight: real)
    requires weight == u * u
    ensures FirstSums(Added(m, Point(x, y, u))) == SumsAdded(FirstSums(m), weight, x, y)
  {
    var m' := Added(m, Point(x, y, u));
    assert m'.s == m.s + weight;
    assert m'.sx == m.sx + weight * x;
    assert m'.sy == m.sy + weight * y;
  }

  // A round of the first loop.
  lemma SumsNext(x: seq<real>, y: seq<real>, sig: Option<seq<real>>, i: nat, weight: real, xi: real, yi: real)
    requires Usable(x, y, sig) && i < |x| && xi == x[i] && yi == y[i]
    requires weight == WeightAt(sig, i)
    ensures SumsOf(PointsOf(x, y, sig, i + 1)) == SumsAdded(SumsOf(PointsOf(x, y, sig, i)), weight, xi, yi)
  {
    PointsNext(x, y, sig, i);
    WeightIs(sig, i);
    var p := Point(xi, yi, Scale(sig, i));
    assert MomentsOf(PointsOf(x, y, sig, i + 1)) == Added(MomentsOf(PointsOf(x, y, sig, i)), p);
    AddedBy(MomentsOf(PointsOf(x, y, sig, i)), xi, yi, Scale(sig, i), weight);
  }

  // The next two sums.
  datatype Spreads = Spreads(stt: real, sty: real)

  function SpreadsOf(ps: seq<Point>, c: real): Spreads {
    Spreads(Stt(ps, c), Sty(ps, c))
  }

  function SpreadsAdded(s: Spreads, t: real, y: real, d: real): Spreads
    requires d != 0.0
  {
    Spreads(s.stt + t * t, s.sty + t * y / d)
  }

  function SpreadsWith(s: Spreads, p: Point, c: real): Spreads {
    Spreads(s.stt + SttOf(p, c), s.sty + StyOf(p, c))
  }

  lemma SpreadsNext(ps: seq<Point>, c: real)
    requires ps != []
    ensures SpreadsOf(ps, c) == SpreadsWith(SpreadsOf(ps[..|ps| - 1], c), ps[|ps| - 1], c)
  {
  }

  lemma SpreadTerm(s: Spreads, x: real, y: real, u: real, c: real, d: real, t: real)
    requires d != 0.0 && u == 1.0 / d && t == (x - c) / d
    ensures SpreadsWith(s, Point(x, y, u), c) == SpreadsAdded(s, t, y, d)
  {
    ByScale(d, x - c);
    ByScale(d, t * y);
    assert t == u * (x - c);
    assert t * t == Square(u * (x - c));
    assert t * y / d == u * (x - c) * y * u;
  }

  // A round of the second loop, and one of the third.
  lemma FitNext(x: seq<real>, y: seq<real>, sig: Option<seq<real>>, i: nat, c: real, d: real, t: real)
    requires Usable(x, y, sig) && i < |x|
    requires d == (if sig.Some? then sig.value[i] else 1.0) && t == (x[i] - c) / d
    ensures SpreadsOf(PointsOf(x, y, sig, i + 1), c) == SpreadsAdded(SpreadsOf(PointsOf(x, y, sig, i), c), t, y[i], d)
  {
    PointsNext(x, y, sig, i);
    SpreadsNext(PointsOf(x, y, sig, i + 1), c);
    SpreadTerm(SpreadsOf(PointsOf(x, y, sig, i), c), x[i], y[i], Scale(sig, i), c, d, t);
  }

  lemma Chi2Next(x: seq<real>, y: seq<real>, sig: Option<seq<real>>, i: nat, a: real, b: real)
    requires Usable(x, y, sig) && i < |x|
    ensures var merit := (y[i] - (a + b * x[i])) / if sig.Some? then sig.value[i] else 1.0;
            Chi2(PointsOf(x, y, sig, i + 1), a, b) == Chi2(PointsOf(x, y, sig, i), a, b) + merit * merit
  {
    PointsNext(x, y, sig, i);
    ByScale(if sig.Some? then sig.value[i] else 1.0, y[i] - (a + b * x[i]));
  }

  function Sig(sig: array?<real>): Option<seq<real>>
    reads if sig == null then {} else {sig}
  {
    if sig == null then None else Some(sig[..])
  }

  method Weight(sig: array?<real>, i: nat) returns (w: real)
    requires sig != null ==> i < sig.Length && sig[i] != 0.0
    ensures w == WeightAt(Sig(sig), i)
  {
    w := 1.0 / if sig != null then sig[i] * sig[i] else 1.0;
  }

  // The first loop, lines 560-566.
  method AddUp(x: array<real>, y: array<real>, sig: array?<real>) returns (sums: Sums)
    requires Usable(x[..], y[..], Sig(sig))
    ensures SumsOf(PointsOf(x[..], y[..], Sig(sig), x.Length)) == sums
  {
    sums := Sums(0.0, 0.0, 0.0);
    ghost var xs, ys, ss := x[..], y[..], Sig(sig);
    for i := 0 to x.Length
      invariant SumsOf(PointsOf(xs, ys, ss, i)) == sums
    {
      var weight := Weight(sig, i);
      SumsNext(xs, ys, ss, i, weight, x[i], y[i]);
      sums := SumsAdded(sums, weight, x[i], y[i]);
    }
  }

  // The second loop, lines 570-581.
  method Spread(x: array<real>, y: array<real>, sig: array?<real>, Sx_S: real) returns (sums: Spreads)
    requires Usable(x[..], y[..], Sig(sig))
    ensures SpreadsOf(PointsOf(x[..], y[..], Sig(sig), x.Length), Sx_S) == sums
  {
    sums := Spreads(0.0, 0.0);
    ghost var xs, ys, ss := x[..], y[..], Sig(sig);
    for i := 0 to x.Length
      invariant SpreadsOf(PointsOf(xs, ys, ss, i), Sx_S) == sums
    {
      var d := if sig != null then sig[i] else 1.0;
      var t := (x[i] - Sx_S) / d;
      FitNext(xs, ys, ss, i, Sx_S, d, t);
      sums := SpreadsAdded(sums, t, y[i], d);
    }
  }

  // The last loop, lines 594-598.
  method Merit(x: array<real>, y: array<real>, sig: array?<real>, a: real, b: real) returns (chi2: real)
    requires Usable(x[..], y[..], Sig(sig))
    ensures chi2 == Chi2(PointsOf(x[..], y[..], Sig(sig), x.Length), a, b)
  {
    chi2 := 0.0;
    ghost var xs, ys, ss := x[..], y[..], Sig(sig);
    for i := 0 to x.Length
      invariant chi2 == Chi2(PointsOf(xs, ys, ss, i), a, b)
    {
      Chi2Next(xs, ys, ss, i, a, b);
      var merit := (y[i] - (a + b * x[i])) / if sig != null then sig[i] else 1.0;
      chi2 := chi2 + merit * merit;
    }
  }

  lemma CanDivide(ps: seq<Point>, S: real, Sx: real, Sy: real)
    requires Weighted(ps) && SumsOf(ps) == Sums(S, Sx, Sy)
    ensures S != 0.0
  {
    WeightPositive(ps);
  }

  lemma CanSolve(ps: seq<Point>, S: real, Sx: real, Sy: real, c: real, stt: real, sty: real)
    requires Weighted(ps) && !SameX(ps) && SumsOf(ps) == Sums(S, Sx, Sy) && IsQuotient(c, Sx, S)
    requires SpreadsOf(ps, c) == Spreads(stt, sty)
    ensures stt != 0.0
  {
    IsRatio(c, Sx, S);
    SttZeroIff(ps);
  }

  lemma IsRatio(q: real, x: real, y: real)
    requires IsQuotient(q, x, y)
    ensures q == x / y
  {
  }

  /** regression: the line it returns satisfies the normal equations, and chi2 says how well it fits. */
  method Fit(x: array<real>, y: array<real>, sig: array?<real>) returns (a: real, b: real, chi2: real)
    requires Usable(x[..], y[..], Sig(sig)) && x.Length > 0
    requires !SameX(PointsOf(x[..], y[..], Sig(sig), x.Length))
    ensures Fits(PointsOf(x[..], y[..], Sig(sig), x.Length), a, b, chi2)
  {
    ghost var ps := PointsOf(x[..], y[..], Sig(sig), x.Length);
    PointsFacts(x[..], y[..], Sig(sig), x.Length);
    var sums := AddUp(x, y, sig);
    var S, Sx, Sy := sums.s, sums.sx, sums.sy;
    CanDivide(ps, S, Sx, Sy);
    var Sx_S := Sx / S;
    Divided(Sx, S, Sx_S);
    var spreads := Spread(x, y, sig, Sx_S);
    var stt, sty := spreads.stt, spreads.sty;
    CanSolve(ps, S, Sx, Sy, Sx_S, stt, sty);
    b := sty / stt;
    Divided(sty, stt, b);
    a := (Sy - b * Sx) / S;
    Divided(Sy - b * Sx, S, a);
    Solves(ps, S, Sx, Sy, Sx_S, stt, sty, a, b);
    chi2 := Merit(x, y, sig, a, b);
  }
}
