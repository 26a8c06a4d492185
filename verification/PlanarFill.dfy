/** The fill functions of pattern.c for planar and semi-planar YUV pictures. */
module PlanarFill {
  import opened Arith
  import opened Planar
  import Smpte

  datatype Yuv = Yuv(y: int, u: int, v: int)

  // MAKE_YUV_601: >> 8 rounds down, for negative numbers too.
  function MakeYuv(r: nat, g: nat, b: nat): Yuv {
    Yuv((66 * r + 129 * g + 25 * b + 128) / 256 + 16,
        (-38 * r - 74 * g + 112 * b + 128) / 256 + 128,
        (112 * r - 94 * g - 18 * b + 128) / 256 + 128)
  }

  /** Luma and chroma of a colour are in the ranges of BT.601, so storing them in a byte loses nothing. */
  lemma YuvInRange(r: nat, g: nat, b: nat)
    requires r < 256 && g < 256 && b < 256
    ensures var c := MakeYuv(r, g, b); 16 <= c.y <= 235 && 16 <= c.u <= 240 && 16 <= c.v <= 240
  {
  }

  /** Grey has no colour, and the more light there is the brighter it is. */
  lemma Grey(x: nat, x': nat)
    requires x <= x' < 256
    ensures var c, c' := MakeYuv(x, x, x), MakeYuv(x', x', x');
            c.u == c.v == 128 && c.y <= c'.y && (x + 2 <= x' ==> c.y < c'.y)
  {
  }

  /** U is blueness and V redness: each grows with its own component and falls with the two others, and luma
      grows with all three. */
  lemma Components(r: nat, g: nat, b: nat, r': nat, g': nat, b': nat)
    ensures r <= r' && g <= g' && b <= b' ==> MakeYuv(r, g, b).y <= MakeYuv(r', g', b').y
    ensures b <= b' && r' <= r && g' <= g ==> MakeYuv(r, g, b).u <= MakeYuv(r', g', b').u
    ensures r <= r' && g' <= g && b' <= b ==> MakeYuv(r, g, b).v <= MakeYuv(r', g', b').v
  {
  }

  /** Black and white, and the pure colours, which reach the ends of the ranges. */
  lemma PureColours()
    ensures MakeYuv(0, 0, 0) == Yuv(16, 128, 128) && MakeYuv(255, 255, 255) == Yuv(235, 128, 128)
    ensures MakeYuv(255, 0, 0) == Yuv(82, 90, 240) && MakeYuv(0, 255, 255) == Yuv(169, 166, 16)
    ensures MakeYuv(0, 0, 255) == Yuv(41, 240, 110) && MakeYuv(255, 255, 0) == Yuv(210, 16, 146)
    ensures MakeYuv(0, 255, 0) == Yuv(144, 54, 34) && MakeYuv(255, 0, 255) == Yuv(107, 202, 222)
  {
  }

  // ---- Samples in a buffer --------------------------------------------------------------------------------

  // Some samples are done, and have their values; no other byte has changed.
  ghost predicate Shows(mem: seq<int>, before: seq<int>, f: Layout, done: set<Sample>, value: Sample -> int) {
    && |mem| == |before|
    && (forall s :: s in done ==> f.Has(s) && f.At(s) < |mem| && mem[f.At(s)] == value(s))
    && forall a :: 0 <= a < |mem| && mem[a] != before[a] ==> Hit(f, done, a)
  }

  ghost predicate Hit(f: Layout, done: set<Sample>, a: int) {
    exists s :: s in done && f.At(s) == a
  }

  // Storing one sample; it may have had another value before.
  lemma Put(mem: seq<int>, was: seq<int>, before: seq<int>, f: Layout, done: set<Sample>,
            old': Sample -> int, value: Sample -> int, s: Sample)
    requires f.Valid() && f.WholeRows() && f.Has(s) && Shows(was, before, f, done, old')
    requires forall t :: t in done && t != s ==> value(t) == old'(t)
    requires f.At(s) < |was| && mem == was[f.At(s) := value(s)]
    ensures Shows(mem, before, f, done + {s}, value)
  {
    forall t | t in done
      ensures t == s || mem[f.At(t)] == value(t)
    {
      if f.At(t) == f.At(s) {
        Apart(f, s, t);
      }
    }
    forall a | 0 <= a < |mem| && mem[a] != before[a]
      ensures Hit(f, done + {s}, a)
    {
      if a == f.At(s) {
        assert s in done + {s};
      } else {
        var t :| t in done && f.At(t) == a;
        assert t in done + {s};
      }
    }
  }

  method PutSample(mem: array<int>, ghost before: seq<int>, ghost f: Layout, ghost done: set<Sample>,
                   ghost old': Sample -> int, ghost value: Sample -> int, ghost s: Sample, at: nat, v: int)
    requires f.Valid() && f.WholeRows() && f.Has(s) && f.Size() <= mem.Length
    requires Shows(mem[..], before, f, done, old') && forall t :: t in done && t != s ==> value(t) == old'(t)
    requires at == f.At(s) && v == value(s)
    modifies mem
    ensures Shows(mem[..], before, f, done + {s}, value)
  {
    InBuffer(f, s);
    ghost var was := mem[..];
    mem[at] := v;
    Put(mem[..], was, before, f, done, old', value, s);
  }

  // ---- fill_smpte_yuv_planar ------------------------------------------------------------------------------

  // The colours are those of the other SMPTE pictures, but for one component of grey.
  const TOP := Smpte.TOP[0 := Smpte.Rgb(191, 192, 192)]

  function Convert(c: Smpte.Rgb): Yuv {
    MakeYuv(c.r, c.g, c.b)
  }

  function TopYuv(i: nat): Yuv
    requires i < 7
  {
    Convert(TOP[i])
  }

  function MiddleYuv(i: nat): Yuv
    requires i < 7
  {
    Convert(Smpte.MIDDLE[i])
  }

  function BottomYuv(i: nat): Yuv
    requires i < 8
  {
    Convert(Smpte.BOTTOM[i])
  }

  function BarYuv(bar: Smpte.Bar): Yuv {
    match bar
    case Top(i) => if i < 7 then TopYuv(i) else Yuv(0, 0, 0)
    case Middle(i) => if i < 7 then MiddleYuv(i) else Yuv(0, 0, 0)
    case Bottom(i) => if i < 8 then BottomYuv(i) else Yuv(0, 0, 0)
  }

  // The rows of a chroma plane.
  function Rows(f: Layout): nat {
    Sub(f.h, f.format.Ysub())
  }

  function Bars(w: nat, h: nat, x: nat, y: nat): Yuv {
    if x < w && y < h && Smpte.Drawable(w, h) then BarYuv(Smpte.BarAt(x, y, w, h)) else Yuv(0, 0, 0)
  }

  // Every sample has the colour of the bar its pixel is in, in the picture of its plane.
  function SmpteValue(f: Layout): Sample -> int {
    (s: Sample) => match s
      case Y(x, y) => Bars(f.w, f.h, x, y).y
      case U(i, j) => Bars(f.w, Rows(f), 2 * i, j).u
      case V(i, j) => Bars(f.w, Rows(f), 2 * i, j).v
  }

  /** The bars at the top are the colour bars of television, from the brightest to the darkest. */
  lemma TopBars()
    ensures TopYuv(0) == Yuv(181, 128, 128) && TopYuv(1) == Yuv(162, 44, 142)
    ensures TopYuv(2) == Yuv(132, 157, 44) && TopYuv(3) == Yuv(113, 73, 58)
    ensures TopYuv(4) == Yuv(84, 184, 199) && TopYuv(5) == Yuv(66, 100, 212) && TopYuv(6) == Yuv(35, 212, 115)
  {
  }

  predicate Ready(f: Layout) {
    f.Valid() && f.WholeRows() && Smpte.Drawable(f.w, f.h)
  }

  /** The i-th bar at the top of the picture: two thirds of the rows, and the columns from i to i + 1 sevenths of
      the width, in the luma plane and, counted in its own rows, in the chroma planes. */
  lemma TopOfPicture(f: Layout, i: nat, x: nat, y: nat)
    requires Ready(f) && i < 7 && x < f.w && i * f.w <= 7 * x < (i + 1) * f.w
    ensures y < f.h && 3 * (y + 1) <= 2 * f.h ==> SmpteValue(f)(Y(x, y)) == TopYuv(i).y
    ensures y < Rows(f) && 3 * (y + 1) <= 2 * Rows(f) && x % 2 == 0 ==>
      SmpteValue(f)(U(x / 2, y)) == TopYuv(i).u && SmpteValue(f)(V(x / 2, y)) == TopYuv(i).v
  {
    if y < f.h {
      Smpte.BarsAreEqual(x, y, f.w, f.h, i);
    }
    if y < Rows(f) && x % 2 == 0 {
      Smpte.BarsAreEqual(x, y, f.w, Rows(f), i);
      assert 2 * (x / 2) == x;
    }
  }

  // Luma is done up to (x, y).
  ghost predicate LumaTo(mem: seq<int>, before: seq<int>, f: Layout, done: set<Sample>, x: nat, y: nat) {
    && Shows(mem, before, f, done, SmpteValue(f))
    && forall s :: f.Has(s) && s.Y? && (s.y < y || (s.y == y && s.x < x)) ==> s in done
  }

  ghost predicate AllLuma(f: Layout, done: set<Sample>) {
    forall s :: f.Has(s) && s.Y? ==> s in done
  }

  // All luma is done, and chroma up to column x of the picture and row y of the plane.
  ghost predicate ChromaTo(mem: seq<int>, before: seq<int>, f: Layout, done: set<Sample>, x: nat, y: nat) {
    && Shows(mem, before, f, done, SmpteValue(f)) && AllLuma(f, done)
    && forall s :: f.Has(s) && !s.Y? && (s.j < y || (s.j == y && 2 * s.i < x)) ==> s in done
  }

  lemma BarsAt(x: nat, y: nat, w: nat, h: nat)
    requires x < w && y < h && Smpte.Drawable(w, h)
    ensures Smpte.BarAt(x, y, w, h).Valid() && Bars(w, h, x, y) == BarYuv(Smpte.BarAt(x, y, w, h))
  {
    Smpte.BarsValid(x, y, w, h);
  }

  method PutLuma(mem: array<int>, ghost before: seq<int>, ghost f: Layout, ghost done: set<Sample>,
                 x: nat, ghost y: nat, row: nat, v: int) returns (ghost done': set<Sample>)
    requires Ready(f) && f.Size() <= mem.Length && x < f.w && y < f.h && LumaTo(mem[..], before, f, done, x, y)
    requires row == Times(y, f.pitch) && v == Bars(f.w, f.h, x, y).y
    modifies mem
    ensures LumaTo(mem[..], before, f, done', x + 1, y)
  {
    PutSample(mem, before, f, done, SmpteValue(f), SmpteValue(f), Y(x, y), row + x, v);
    done' := done + {Y(x, y)};
  }

  method PutChroma(mem: array<int>, ghost before: seq<int>, ghost f: Layout, ghost done: set<Sample>,
                   x: nat, ghost i: nat, ghost y: nat, u: nat, v: nat, at: nat, c: Yuv)
      returns (ghost done': set<Sample>)
    requires Ready(f) && f.Size() <= mem.Length && x == 2 * i < f.w && y < Rows(f)
    requires ChromaTo(mem[..], before, f, done, x, y)
    requires u == f.FirstU() + Times(y, f.ChromaPitch()) && v == f.FirstV() + Times(y, f.ChromaPitch())
    requires at == f.Column(i) && c == Bars(f.w, Rows(f), x, y)
    modifies mem
    ensures ChromaTo(mem[..], before, f, done', x + 2, y)
  {
    PutSample(mem, before, f, done, SmpteValue(f), SmpteValue(f), U(i, y), u + at, c.u);
    PutSample(mem, before, f, done + {U(i, y)}, SmpteValue(f), SmpteValue(f), V(i, y), v + at, c.v);
    done' := done + {U(i, y)} + {V(i, y)};
    ChromaNext(mem[..], before, f, done, i, y);
  }

  lemma ChromaNext(mem: seq<int>, before: seq<int>, f: Layout, done: set<Sample>, i: nat, y: nat)
    requires AllLuma(f, done)
    requires forall s :: f.Has(s) && !s.Y? && (s.j < y || (s.j == y && 2 * s.i < 2 * i)) ==> s in done
    requires Shows(mem, before, f, done + {U(i, y)} + {V(i, y)}, SmpteValue(f))
    ensures ChromaTo(mem, before, f, done + {U(i, y)} + {V(i, y)}, 2 * i + 2, y)
  {
    forall s | f.Has(s) && !s.Y? && (s.j < y || (s.j == y && 2 * s.i < 2 * i + 2))
      ensures s in done + {U(i, y)} + {V(i, y)}
    {
      assert s in done || (s.i == i && s.j == y);
    }
  }

  // x * cs / xsub, for x == xsub * i.
  method ChromaIndex(ghost f: Layout, x: nat, cs: nat, ghost i: nat) returns (at: nat)
    requires cs == (if f.format.Semi() then 2 else 1) && x == 2 * i
    ensures at == f.Column(i)
  {
    at := x * cs / 2;
  }

  method LumaTop(mem: array<int>, w: nat, ghost before: seq<int>, ghost f: Layout, ghost done: set<Sample>,
                  ghost y: nat, row: nat) returns (ghost done': set<Sample>)
    requires Ready(f) && f.Size() <= mem.Length && f.w == w && y < f.h && y < f.h * 6 / 9
    requires row == Times(y, f.pitch) && LumaTo(mem[..], before, f, done, 0, y)
    modifies mem
    ensures LumaTo(mem[..], before, f, done', 0, y + 1)
  {
    done' := done;
    var x := 0;
    while x < w
      invariant x <= w && LumaTo(mem[..], before, f, done', x, y)
    {
      BarsAt(x, y, w, f.h);
      done' := PutLuma(mem, before, f, done', x, y, row, TopYuv(x * 7 / w).y);
      x := x + 1;
    }
  }

  method LumaMiddle(mem: array<int>, w: nat, ghost before: seq<int>, ghost f: Layout, ghost done: set<Sample>,
                  ghost y: nat, row: nat) returns (ghost done': set<Sample>)
    requires Ready(f) && f.Size() <= mem.Length && f.w == w && y < f.h && f.h * 6 / 9 <= y < f.h * 7 / 9
    requires row == Times(y, f.pitch) && LumaTo(mem[..], before, f, done, 0, y)
    modifies mem
    ensures LumaTo(mem[..], before, f, done', 0, y + 1)
  {
    done' := done;
    var x := 0;
    while x < w
      invariant x <= w && LumaTo(mem[..], before, f, done', x, y)
    {
      BarsAt(x, y, w, f.h);
      done' := PutLuma(mem, before, f, done', x, y, row, MiddleYuv(x * 7 / w).y);
      x := x + 1;
    }
  }

  method LumaBottom(mem: array<int>, w: nat, ghost before: seq<int>, ghost f: Layout, ghost done: set<Sample>,
                  ghost y: nat, row: nat) returns (ghost done': set<Sample>)
    requires Ready(f) && f.Size() <= mem.Length && f.w == w && y < f.h && f.h * 7 / 9 <= y
    requires row == Times(y, f.pitch) && LumaTo(mem[..], before, f, done, 0, y)
    modifies mem
    ensures LumaTo(mem[..], before, f, done', 0, y + 1)
  {
    done' := done;
    var x := 0;
    while x < w * 5 / 7
      invariant x <= w * 5 / 7 && LumaTo(mem[..], before, f, done', x, y)
    {
      BarsAt(x, y, w, f.h);
      done' := PutLuma(mem, before, f, done', x, y, row, BottomYuv(x * 4 / (w * 5 / 7)).y);
      x := x + 1;
    }
    while x < w * 6 / 7
      invariant w * 5 / 7 <= x <= w * 6 / 7 && LumaTo(mem[..], before, f, done', x, y)
    {
      BarsAt(x, y, w, f.h);
      done' := PutLuma(mem, before, f, done', x, y, row, BottomYuv((x - w * 5 / 7) * 3 / (w / 7) + 4).y);
      x := x + 1;
    }
    while x < w
      invariant w * 6 / 7 <= x <= w && LumaTo(mem[..], before, f, done', x, y)
    {
      BarsAt(x, y, w, f.h);
      done' := PutLuma(mem, before, f, done', x, y, row, BottomYuv(7).y);
      x := x + 1;
    }
  }

  method ChromaTop(mem: array<int>, w: nat, cs: nat, ghost f: Layout, ghost before: seq<int>,
                    ghost done: set<Sample>, ghost y: nat, u: nat, v: nat) returns (ghost done': set<Sample>)
    requires Ready(f) && f.Size() <= mem.Length && f.w == w && cs == (if f.format.Semi() then 2 else 1)
    requires y < Rows(f) && y < Rows(f) * 6 / 9 && ChromaTo(mem[..], before, f, done, 0, y)
    requires u == f.FirstU() + Times(y, f.ChromaPitch()) && v == f.FirstV() + Times(y, f.ChromaPitch())
    modifies mem
    ensures ChromaTo(mem[..], before, f, done', 0, y + 1)
  {
    done' := done;
    var x := 0;
    ghost var i := 0;
    while x < w
      invariant x <= w + 1 && x == 2 * i && ChromaTo(mem[..], before, f, done', x, y)
    {
      BarsAt(x, y, w, Rows(f));
      var at := ChromaIndex(f, x, cs, i);
      done' := PutChroma(mem, before, f, done', x, i, y, u, v, at, TopYuv(x * 7 / w));
      x, i := x + 2, i + 1;
    }
  }

  method ChromaMiddle(mem: array<int>, w: nat, cs: nat, ghost f: Layout, ghost before: seq<int>,
                    ghost done: set<Sample>, ghost y: nat, u: nat, v: nat) returns (ghost done': set<Sample>)
    requires Ready(f) && f.Size() <= mem.Length && f.w == w && cs == (if f.format.Semi() then 2 else 1)
    requires y < Rows(f) && Rows(f) * 6 / 9 <= y < Rows(f) * 7 / 9 && ChromaTo(mem[..], before, f, done, 0, y)
    requires u == f.FirstU() + Times(y, f.ChromaPitch()) && v == f.FirstV() + Times(y, f.ChromaPitch())
    modifies mem
    ensures ChromaTo(mem[..], before, f, done', 0, y + 1)
  {
    done' := done;
    var x := 0;
    ghost var i := 0;
    while x < w
      invariant x <= w + 1 && x == 2 * i && ChromaTo(mem[..], before, f, done', x, y)
    {
      BarsAt(x, y, w, Rows(f));
      var at := ChromaIndex(f, x, cs, i);
      done' := PutChroma(mem, before, f, done', x, i, y, u, v, at, MiddleYuv(x * 7 / w));
      x, i := x + 2, i + 1;
    }
  }

  method ChromaBottomLeft(mem: array<int>, w: nat, cs: nat, ghost f: Layout, ghost before: seq<int>,
                          ghost done: set<Sample>, ghost y: nat, u: nat, v: nat, x0: nat, ghost i0: nat)
      returns (x: nat, ghost i: nat, ghost done': set<Sample>)
    requires Ready(f) && f.Size() <= mem.Length && f.w == w && cs == (if f.format.Semi() then 2 else 1)
    requires Rows(f) * 7 / 9 <= y < Rows(f)
    requires u == f.FirstU() + Times(y, f.ChromaPitch()) && v == f.FirstV() + Times(y, f.ChromaPitch())
    requires 0 <= x0 == 2 * i0 && ChromaTo(mem[..], before, f, done, x0, y)
    modifies mem
    ensures w * 5 / 7 <= x == 2 * i && ChromaTo(mem[..], before, f, done', x, y)
  {
    x, i, done' := x0, i0, done;
    while x < w * 5 / 7
      invariant 0 <= x == 2 * i && ChromaTo(mem[..], before, f, done', x, y)
    {
      BarsAt(x, y, w, Rows(f));
      var at := ChromaIndex(f, x, cs, i);
      done' := PutChroma(mem, before, f, done', x, i, y, u, v, at, BottomYuv(x * 4 / (w * 5 / 7)));
      x, i := x + 2, i + 1;
    }
  }

  method ChromaBottomMiddle(mem: array<int>, w: nat, cs: nat, ghost f: Layout, ghost before: seq<int>,
                          ghost done: set<Sample>, ghost y: nat, u: nat, v: nat, x0: nat, ghost i0: nat)
      returns (x: nat, ghost i: nat, ghost done': set<Sample>)
    requires Ready(f) && f.Size() <= mem.Length && f.w == w && cs == (if f.format.Semi() then 2 else 1)
    requires Rows(f) * 7 / 9 <= y < Rows(f)
    requires u == f.FirstU() + Times(y, f.ChromaPitch()) && v == f.FirstV() + Times(y, f.ChromaPitch())
    requires w * 5 / 7 <= x0 == 2 * i0 && ChromaTo(mem[..], before, f, done, x0, y)
    modifies mem
    ensures w * 6 / 7 <= x == 2 * i && ChromaTo(mem[..], before, f, done', x, y)
  {
    x, i, done' := x0, i0, done;
    while x < w * 6 / 7
      invariant w * 5 / 7 <= x == 2 * i && ChromaTo(mem[..], before, f, done', x, y)
    {
      BarsAt(x, y, w, Rows(f));
      var at := ChromaIndex(f, x, cs, i);
      done' := PutChroma(mem, before, f, done', x, i, y, u, v, at, BottomYuv((x - w * 5 / 7) * 3 / (w / 7) + 4));
      x, i := x + 2, i + 1;
    }
  }

  method ChromaBottomRight(mem: array<int>, w: nat, cs: nat, ghost f: Layout, ghost before: seq<int>,
                          ghost done: set<Sample>, ghost y: nat, u: nat, v: nat, x0: nat, ghost i0: nat)
      returns (x: nat, ghost i: nat, ghost done': set<Sample>)
    requires Ready(f) && f.Size() <= mem.Length && f.w == w && cs == (if f.format.Semi() then 2 else 1)
    requires Rows(f) * 7 / 9 <= y < Rows(f)
    requires u == f.FirstU() + Times(y, f.ChromaPitch()) && v == f.FirstV() + Times(y, f.ChromaPitch())
    requires w * 6 / 7 <= x0 == 2 * i0 && ChromaTo(mem[..], before, f, done, x0, y)
    modifies mem
    ensures w <= x == 2 * i && ChromaTo(mem[..], before, f, done', x, y)
  {
    x, i, done' := x0, i0, done;
    while x < w
      invariant w * 6 / 7 <= x == 2 * i && ChromaTo(mem[..], before, f, done', x, y)
    {
      BarsAt(x, y, w, Rows(f));
      var at := ChromaIndex(f, x, cs, i);
      done' := PutChroma(mem, before, f, done', x, i, y, u, v, at, BottomYuv(7));
      x, i := x + 2, i + 1;
    }
  }

  method ChromaBottom(mem: array<int>, w: nat, cs: nat, ghost f: Layout, ghost before: seq<int>,
                      ghost done: set<Sample>, ghost y: nat, u: nat, v: nat) returns (ghost done': set<Sample>)
    requires Ready(f) && f.Size() <= mem.Length && f.w == w && cs == (if f.format.Semi() then 2 else 1)
    requires Rows(f) * 7 / 9 <= y < Rows(f)
    requires u == f.FirstU() + Times(y, f.ChromaPitch()) && v == f.FirstV() + Times(y, f.ChromaPitch())
    requires ChromaTo(mem[..], before, f, done, 0, y)
    modifies mem
    ensures ChromaTo(mem[..], before, f, done', 0, y + 1)
  {
    done' := done;
    var x := 0;
    ghost var i := 0;
    x, i, done' := ChromaBottomLeft(mem, w, cs, f, before, done', y, u, v, x, i);
    x, i, done' := ChromaBottomMiddle(mem, w, cs, f, before, done', y, u, v, x, i);
    x, i, done' := ChromaBottomRight(mem, w, cs, f, before, done', y, u, v, x, i);
  }

  // The two halves of the function.
  method FillLuma(mem: array<int>, w: nat, h: nat, stride: nat, ghost f: Layout) returns (ghost done: set<Sample>)
    requires Ready(f) && f.Size() <= mem.Length && f.w == w && f.h == h && f.pitch == stride
    modifies mem
    ensures LumaTo(mem[..], old(mem[..]), f, done, 0, h)
  {
    ghost var before := mem[..];
    done := {};
    var y, row := 0, 0;
    while y < h * 6 / 9
      invariant y <= h * 6 / 9 && row == Times(y, stride) && LumaTo(mem[..], before, f, done, 0, y)
    {
      done := LumaTop(mem, w, before, f, done, y, row);
      y, row := y + 1, row + stride;
    }
    while y < h * 7 / 9
      invariant h * 6 / 9 <= y <= h * 7 / 9 && row == Times(y, stride) && LumaTo(mem[..], before, f, done, 0, y)
    {
      done := LumaMiddle(mem, w, before, f, done, y, row);
      y, row := y + 1, row + stride;
    }
    while y < h
      invariant h * 7 / 9 <= y <= h && row == Times(y, stride) && LumaTo(mem[..], before, f, done, 0, y)
    {
      done := LumaBottom(mem, w, before, f, done, y, row);
      y, row := y + 1, row + stride;
    }
  }

  method FillChroma(mem: array<int>, w: nat, cs: nat, rows: nat, stride: nat, firstU: nat, firstV: nat,
                    ghost f: Layout, ghost before: seq<int>, ghost done: set<Sample>)
      returns (ghost done': set<Sample>)
    requires Ready(f) && f.Size() <= mem.Length && f.w == w && rows == Rows(f) && stride == f.ChromaPitch()
    requires cs == (if f.format.Semi() then 2 else 1) && firstU == f.FirstU() && firstV == f.FirstV()
    requires ChromaTo(mem[..], before, f, done, 0, 0)
    modifies mem
    ensures ChromaTo(mem[..], before, f, done', 0, rows)
  {
    done' := done;
    var y, u, v := 0, firstU, firstV;
    while y < rows * 6 / 9
      invariant y <= rows * 6 / 9 && u == firstU + Times(y, stride) && v == firstV + Times(y, stride)
      invariant ChromaTo(mem[..], before, f, done', 0, y)
    {
      done' := ChromaTop(mem, w, cs, f, before, done', y, u, v);
      y, u, v := y + 1, u + stride, v + stride;
    }
    while y < rows * 7 / 9
      invariant rows * 6 / 9 <= y <= rows * 7 / 9 && u == firstU + Times(y, stride) && v == firstV + Times(y, stride)
      invariant ChromaTo(mem[..], before, f, done', 0, y)
    {
      done' := ChromaMiddle(mem, w, cs, f, before, done', y, u, v);
      y, u, v := y + 1, u + stride, v + stride;
    }
    while y < rows
      invariant rows * 7 / 9 <= y <= rows && u == firstU + Times(y, stride) && v == firstV + Times(y, stride)
      invariant ChromaTo(mem[..], before, f, done', 0, y)
    {
      done' := ChromaBottom(mem, w, cs, f, before, done', y, u, v);
      y, u, v := y + 1, u + stride, v + stride;
    }
  }

  // From one row of chroma to the next.
  method ChromaStep(ghost f: Layout, stride: nat, cs: nat) returns (step: nat)
    requires f.pitch == stride && cs == (if f.format.Semi() then 2 else 1)
    ensures step == f.ChromaPitch()
  {
    step := stride * cs / 2;
  }

  // The whole picture: every sample has its value, and no byte has changed that is not one.
  ghost predicate Filled(mem: seq<int>, before: seq<int>, f: Layout, value: Sample -> int) {
    && |mem| == |before|
    && (forall s :: f.Has(s) ==> f.At(s) < |mem| && mem[f.At(s)] == value(s))
    && forall a :: 0 <= a < |mem| && mem[a] != before[a] ==> exists s :: f.Has(s) && f.At(s) == a
  }

  lemma AllDone(mem: seq<int>, before: seq<int>, f: Layout, done: set<Sample>, value: Sample -> int)
    requires Shows(mem, before, f, done, value) && forall s :: f.Has(s) ==> s in done
    ensures Filled(mem, before, f, value)
  {
    forall a | 0 <= a < |mem| && mem[a] != before[a]
      ensures exists s :: f.Has(s) && f.At(s) == a
    {
      var s :| s in done && f.At(s) == a;
    }
  }

  /** fill_smpte_yuv_planar, with the planes that bo_create has laid out. */
  method FillSmpte(mem: array<int>, format: Format, w: nat, h: nat, stride: nat)
    requires Ready(Layout(format, w, h, stride)) && Layout(format, w, h, stride).Size() <= mem.Length
    modifies mem
    ensures Filled(mem[..], old(mem[..]), Layout(format, w, h, stride), SmpteValue(Layout(format, w, h, stride)))
  {
    var f := Layout(format, w, h, stride);
    var cs, ysub := if format.Semi() then 2 else 1, format.Ysub();
    ghost var done := FillLuma(mem, w, h, stride, f);
    var step := ChromaStep(f, stride, cs);
    done := FillChroma(mem, w, cs, Sub(h, ysub), step, f.FirstU(), f.FirstV(), f, old(mem[..]), done);
    AllDone(mem[..], old(mem[..]), f, done, SmpteValue(f));
  }

  // ---- fill_tiles_yuv_planar ------------------------------------------------------------------------------

  // The byte of a 32-bit number that begins at bit 8 * k.
  function ByteOf(n: nat, k: nat): (b: nat)
    ensures b < 256
  {
    if k == 0 then n % 256 else ByteOf(n / 256, k - 1)
  }

  // The colour of the tile pixel (x, y) is in.
  function TileYuv(w: nat, x: nat, y: nat): Yuv
    requires w > 0
  {
    TileOf((x + y) / w, (x + y) % w)
  }

  function TileOf(quot: nat, rem: nat): Yuv {
    YuvOf(TileRgb(quot, rem))
  }

  function TileRgb(quot: nat, rem: nat): nat {
    (0x00130502 * (quot / 64) + 0x000a1120 * (rem / 64)) % 0x1_0000_0000
  }

  function YuvOf(rgb32: nat): Yuv {
    MakeYuv(ByteOf(rgb32, 2), ByteOf(rgb32, 1), ByteOf(rgb32, 0))
  }

  // The bytes of a number put together from three of them.
  lemma BytesOf(r: nat, g: nat, b: nat)
    requires r < 256 && g < 256 && b < 256
    ensures var n := 65536 * r + 256 * g + b; ByteOf(n, 2) == r && ByteOf(n, 1) == g && ByteOf(n, 0) == b
  {
    var n := 65536 * r + 256 * g + b;
    assert n / 256 == 256 * r + g && n / 256 / 256 == r;
    assert ByteOf(n, 1) == ByteOf(n / 256, 0) && ByteOf(n, 2) == ByteOf(n / 256, 1);
  }

  lemma Band(a: nat, q: nat)
    requires 64 * q <= a < 64 * (q + 1)
    ensures a / 64 == q
  {
  }

  /** The colour of tile t of a diagonal band, in the k-th group of 64 bands: red, green and blue grow by
      10, 17 and 32 with t, and by 19, 5 and 2 with k, as long as they fit into bytes. */
  lemma TileColour(w: nat, x: nat, y: nat, t: nat, k: nat)
    requires w > 0 && 64 * t <= (x + y) % w < 64 * (t + 1) && 64 * k <= (x + y) / w < 64 * (k + 1)
    requires 10 * t + 19 * k < 256 && 17 * t + 5 * k < 256 && 32 * t + 2 * k < 256
    ensures TileYuv(w, x, y) == MakeYuv(10 * t + 19 * k, 17 * t + 5 * k, 32 * t + 2 * k)
  {
    ColourOf((x + y) / w, (x + y) % w, t, k);
  }

  lemma ColourOf(quot: nat, rem: nat, t: nat, k: nat)
    requires 64 * t <= rem < 64 * (t + 1) && 64 * k <= quot < 64 * (k + 1)
    requires 10 * t + 19 * k < 256 && 17 * t + 5 * k < 256 && 32 * t + 2 * k < 256
    ensures TileOf(quot, rem) == MakeYuv(10 * t + 19 * k, 17 * t + 5 * k, 32 * t + 2 * k)
  {
    RgbOf(quot, rem, t, k);
    BytesOf(10 * t + 19 * k, 17 * t + 5 * k, 32 * t + 2 * k);
  }

  lemma RgbOf(quot: nat, rem: nat, t: nat, k: nat)
    requires 64 * t <= rem < 64 * (t + 1) && 64 * k <= quot < 64 * (k + 1)
    requires 10 * t + 19 * k < 256 && 17 * t + 5 * k < 256 && 32 * t + 2 * k < 256
    ensures TileRgb(quot, rem) == 65536 * (10 * t + 19 * k) + 256 * (17 * t + 5 * k) + (32 * t + 2 * k)
  {
    Band(quot, k);
    Band(rem, t);
  }

  /** So the corner of the picture is black, a tile ends where x + y reaches the next multiple of 64, and the
      second one is a dark blue. */
  lemma FirstTiles(w: nat, x: nat, y: nat)
    requires x + y < w
    ensures x + y < 64 ==> TileYuv(w, x, y) == Yuv(16, 128, 128)
    ensures 64 <= x + y < 128 ==> TileYuv(w, x, y) == Yuv(30, 136, 124)
  {
    DivUnique(x + y, w, 0, x + y);
    if x + y < 64 {
      TileColour(w, x, y, 0, 0);
    } else if x + y < 128 {
      TileColour(w, x, y, 1, 0);
    }
  }

  function Min(a: int, b: int): int {
    if a < b then a else b
  }

  // The first row of the picture that belongs to chroma row j, and the last.
  function FirstRow(f: Layout, j: nat): nat {
    if f.format.Ysub() == 2 then 2 * j else j
  }

  function LastRow(f: Layout, j: nat): nat {
    if f.format.Ysub() == 2 then 2 * j + 1 else j
  }

  // The pixel that was the last to set chroma sample (i, j), when all pixels before (x, y) are done.
  function SetX(f: Layout, i: nat, j: nat, x: nat, y: nat): int {
    if FirstRow(f, j) <= y <= LastRow(f, j) && 2 * i < x then Min(2 * i + 1, x - 1) else Min(2 * i + 1, f.w - 1)
  }

  function SetY(f: Layout, i: nat, j: nat, x: nat, y: nat): int {
    if FirstRow(f, j) <= y <= LastRow(f, j) && 2 * i < x then y else Min(LastRow(f, j), y - 1)
  }

  function Tile(f: Layout, x: int, y: int): Yuv {
    if f.w > 0 && x >= 0 && y >= 0 then TileYuv(f.w, x, y) else Yuv(0, 0, 0)
  }

  // The values of all samples then, when U is at column xu of row y and V at column xv.
  function TileValue(f: Layout, xu: nat, xv: nat, y: nat): Sample -> int {
    (s: Sample) => match s
      case Y(px, py) => Tile(f, px, py).y
      case U(i, j) => Tile(f, SetX(f, i, j, xu, y), SetY(f, i, j, xu, y)).u
      case V(i, j) => Tile(f, SetX(f, i, j, xv, y), SetY(f, i, j, xv, y)).v
  }

  predicate Started(f: Layout, s: Sample, x: nat, y: nat) {
    match s
    case Y(px, py) => py < y || (py == y && px < x)
    case U(i, j) => FirstRow(f, j) < y || (FirstRow(f, j) == y && 2 * i < x)
    case V(i, j) => FirstRow(f, j) < y || (FirstRow(f, j) == y && 2 * i < x)
  }

  ghost predicate TilesTo(mem: seq<int>, before: seq<int>, f: Layout, done: set<Sample>, x: nat, y: nat) {
    && Shows(mem, before, f, done, TileValue(f, x, x, y))
    && forall s :: s in done <==> f.Has(s) && Started(f, s, x, y)
  }

  // A pixel sets the chroma sample it belongs to, and leaves the others alone.
  lemma SetNext(f: Layout, i: nat, j: nat, x: nat, y: nat)
    requires x < f.w
    ensures FirstRow(f, j) <= y <= LastRow(f, j) && i == x / 2 ==>
              SetX(f, i, j, x + 1, y) == x && SetY(f, i, j, x + 1, y) == y
    ensures !(FirstRow(f, j) <= y <= LastRow(f, j) && i == x / 2) ==>
              SetX(f, i, j, x + 1, y) == SetX(f, i, j, x, y) && SetY(f, i, j, x + 1, y) == SetY(f, i, j, x, y)
  {
  }

  // Nothing changes from the end of a row to the beginning of the next.
  lemma SetRow(f: Layout, i: nat, j: nat, y: nat)
    requires 2 * i < f.w && FirstRow(f, j) <= y
    ensures SetX(f, i, j, f.w, y) == SetX(f, i, j, 0, y + 1) && SetY(f, i, j, f.w, y) == SetY(f, i, j, 0, y + 1)
  {
  }

  lemma RowOf(f: Layout, y: nat)
    ensures FirstRow(f, Sub(y, f.format.Ysub())) <= y <= LastRow(f, Sub(y, f.format.Ysub()))
    ensures forall j: nat :: FirstRow(f, j) <= y <= LastRow(f, j) ==> j == Sub(y, f.format.Ysub())
  {
  }

  // Shows depends on the values of the samples that are done only.
  lemma Revalue(mem: seq<int>, before: seq<int>, f: Layout, done: set<Sample>, v: Sample -> int, v': Sample -> int)
    requires Shows(mem, before, f, done, v) && forall s :: s in done ==> v'(s) == v(s)
    ensures Shows(mem, before, f, done, v')
  {
  }

  lemma NextTile(f: Layout, x: nat, y: nat, s: Sample)
    requires x < f.w && f.Has(s)
    ensures s != U(x / 2, Sub(y, f.format.Ysub())) ==> TileValue(f, x + 1, x, y)(s) == TileValue(f, x, x, y)(s)
    ensures s != V(x / 2, Sub(y, f.format.Ysub())) ==>
              TileValue(f, x + 1, x + 1, y)(s) == TileValue(f, x + 1, x, y)(s)
  {
    RowOf(f, y);
    if !s.Y? {
      SetNext(f, s.i, s.j, x, y);
    }
  }

  lemma ThisTile(f: Layout, x: nat, y: nat)
    requires x < f.w
    ensures var i, j := x / 2, Sub(y, f.format.Ysub());
            && TileValue(f, x + 1, x, y)(U(i, j)) == TileYuv(f.w, x, y).u
            && TileValue(f, x + 1, x + 1, y)(V(i, j)) == TileYuv(f.w, x, y).v
            && TileValue(f, x, x, y)(Y(x, y)) == TileYuv(f.w, x, y).y
  {
    RowOf(f, y);
    SetNext(f, x / 2, Sub(y, f.format.Ysub()), x, y);
  }

  lemma StartedNext(f: Layout, x: nat, y: nat, s: Sample)
    requires f.Valid() && f.WholeRows() && x < f.w && y < f.h
    ensures var i, j := x / 2, Sub(y, f.format.Ysub());
            && f.Has(Y(x, y)) && f.Has(U(i, j)) && f.Has(V(i, j))
            && (f.Has(s) && Started(f, s, x + 1, y) <==>
                (f.Has(s) && Started(f, s, x, y)) || s == Y(x, y) || s == U(i, j) || s == V(i, j))
  {
    RowOf(f, y);
  }

  // The chroma rows that row y of the picture belongs to.
  function RowU(f: Layout, y: nat): nat {
    f.FirstU() + Times(Sub(y, f.format.Ysub()), f.ChromaPitch())
  }

  function RowV(f: Layout, y: nat): nat {
    f.FirstV() + Times(Sub(y, f.format.Ysub()), f.ChromaPitch())
  }

  // One pixel: its luma, and the chroma it shares with its neighbours.
  method PutPixel(mem: array<int>, ghost before: seq<int>, ghost f: Layout, ghost done: set<Sample>,
                  x: nat, ghost y: nat, row: nat, u: nat, v: nat, cs: nat, c: Yuv) returns (ghost done': set<Sample>)
    requires f.Valid() && f.WholeRows() && f.Size() <= mem.Length && x < f.w && y < f.h
    requires TilesTo(mem[..], before, f, done, x, y) && c == TileYuv(f.w, x, y)
    requires cs == (if f.format.Semi() then 2 else 1) && row == Times(y, f.pitch)
    requires u == RowU(f, y) && v == RowV(f, y)
    modifies mem
    ensures TilesTo(mem[..], before, f, done', x + 1, y)
  {
    ghost var i, j := x / 2, Sub(y, f.format.Ysub());
    var at := x / 2 * cs;
    assert at == f.Column(i);
    ThisTile(f, x, y);
    StartedNext(f, x, y, Y(x, y));
    forall s | f.Has(s)
      ensures s != U(i, j) ==> TileValue(f, x + 1, x, y)(s) == TileValue(f, x, x, y)(s)
      ensures s != V(i, j) ==> TileValue(f, x + 1, x + 1, y)(s) == TileValue(f, x + 1, x, y)(s)
    {
      NextTile(f, x, y, s);
    }
    ghost var d1, d2 := done + {Y(x, y)}, done + {Y(x, y)} + {U(i, j)};
    done' := d2 + {V(i, j)};
    PutSample(mem, before, f, done, TileValue(f, x, x, y), TileValue(f, x, x, y), Y(x, y), row + x, c.y);
    PutSample(mem, before, f, d1, TileValue(f, x, x, y), TileValue(f, x + 1, x, y), U(i, j), u + at, c.u);
    PutSample(mem, before, f, d2, TileValue(f, x + 1, x, y), TileValue(f, x + 1, x + 1, y), V(i, j), v + at, c.v);
    forall s
      ensures s in done' <==> f.Has(s) && Started(f, s, x + 1, y)
    {
      StartedNext(f, x, y, s);
    }
  }

  lemma NextRow(mem: seq<int>, before: seq<int>, f: Layout, done: set<Sample>, y: nat)
    requires TilesTo(mem, before, f, done, f.w, y)
    ensures TilesTo(mem, before, f, done, 0, y + 1)
  {
    forall s | s in done
      ensures TileValue(f, 0, 0, y + 1)(s) == TileValue(f, f.w, f.w, y)(s)
    {
      if !s.Y? {
        SetRow(f, s.i, s.j, y);
      }
    }
    Revalue(mem, before, f, done, TileValue(f, f.w, f.w, y), TileValue(f, 0, 0, y + 1));
  }

  // A chroma sample ends up with the colour of the last of the pixels that share it.
  function TilesValue(f: Layout): Sample -> int {
    (s: Sample) => match s
      case Y(x, y) => Tile(f, x, y).y
      case U(i, j) => Tile(f, Min(2 * i + 1, f.w - 1), LastRow(f, j)).u
      case V(i, j) => Tile(f, Min(2 * i + 1, f.w - 1), LastRow(f, j)).v
  }

  // Pixel (x, y) sets chroma sample (i, j).
  predicate Sets(f: Layout, x: nat, y: nat, i: nat, j: nat) {
    x < f.w && y < f.h && x / 2 == i && Sub(y, f.format.Ysub()) == j
  }

  // Of the pixels that set sample (i, j), this one comes last.
  ghost predicate SetsLast(f: Layout, x: nat, y: nat, i: nat, j: nat) {
    && Sets(f, x, y, i, j)
    && forall x': nat, y': nat :: Sets(f, x', y', i, j) ==> y' < y || (y' == y && x' <= x)
  }

  /** A chroma sample ends up with the colour of the one pixel that sets it after all others that do, and luma
      has that of its pixel. */
  lemma LastSetsIt(f: Layout, x: nat, y: nat, i: nat, j: nat)
    requires f.Valid() && f.WholeRows() && x < f.w && y < f.h
    ensures TilesValue(f)(Y(x, y)) == TileYuv(f.w, x, y).y
    ensures SetsLast(f, x, y, i, j) ==>
      TilesValue(f)(U(i, j)) == TileYuv(f.w, x, y).u && TilesValue(f)(V(i, j)) == TileYuv(f.w, x, y).v
  {
    if SetsLast(f, x, y, i, j) {
      LastPixel(f, x, y, i, j);
    }
  }

  lemma LastPixel(f: Layout, x: nat, y: nat, i: nat, j: nat)
    requires f.Valid() && f.WholeRows() && SetsLast(f, x, y, i, j)
    ensures x == Min(2 * i + 1, f.w - 1) && y == LastRow(f, j)
  {
    assert Sets(f, Min(2 * i + 1, f.w - 1), LastRow(f, j), i, j);
  }

  lemma FirstTile(mem: seq<int>, f: Layout)
    ensures TilesTo(mem, mem, f, {}, 0, 0)
  {
  }

  lemma LastTile(f: Layout, s: Sample)
    requires f.Valid() && f.WholeRows() && f.Has(s)
    ensures TilesValue(f)(s) == TileValue(f, 0, 0, f.h)(s) && Started(f, s, 0, f.h)
  {
    if !s.Y? {
      LastSet(f, s.i, s.j);
    }
  }

  lemma LastSet(f: Layout, i: nat, j: nat)
    requires f.Valid() && f.WholeRows() && j < f.ChromaRows()
    ensures SetX(f, i, j, 0, f.h) == Min(2 * i + 1, f.w - 1) && SetY(f, i, j, 0, f.h) == LastRow(f, j)
    ensures FirstRow(f, j) < f.h
  {
  }

  lemma RowsNext(f: Layout, y: nat)
    ensures RowU(f, y + 1) == RowU(f, y) + (if (y + 1) % f.format.Ysub() == 0 then f.ChromaPitch() else 0)
    ensures RowV(f, y + 1) == RowV(f, y) + (if (y + 1) % f.format.Ysub() == 0 then f.ChromaPitch() else 0)
  {
    if f.format.Ysub() == 2 {
      assert (y + 1) / 2 == y / 2 + if (y + 1) % 2 == 0 then 1 else 0;
    }
  }

  lemma AllTiles(mem: seq<int>, before: seq<int>, f: Layout, done: set<Sample>)
    requires f.Valid() && f.WholeRows() && TilesTo(mem, before, f, done, 0, f.h)
    ensures Filled(mem, before, f, TilesValue(f))
  {
    forall s | f.Has(s)
      ensures TilesValue(f)(s) == TileValue(f, 0, 0, f.h)(s) && s in done
    {
      LastTile(f, s);
    }
    Revalue(mem, before, f, done, TileValue(f, 0, 0, f.h), TilesValue(f));
    AllDone(mem, before, f, done, TilesValue(f));
  }

  /** fill_tiles_yuv_planar, with the planes that bo_create has laid out. */
  method FillTiles(mem: array<int>, format: Format, w: nat, h: nat, stride: nat)
    requires var f := Layout(format, w, h, stride); f.Valid() && f.WholeRows() && f.Size() <= mem.Length
    modifies mem
    ensures Filled(mem[..], old(mem[..]), Layout(format, w, h, stride), TilesValue(Layout(format, w, h, stride)))
  {
    var f := Layout(format, w, h, stride);
    var cs := if format.Semi() then 2 else 1;
    var step := ChromaStep(f, stride, cs);
    ghost var before := mem[..];
    ghost var done := TileRows(mem, w, h, stride, step, cs, format.Ysub(), f.FirstU(), f.FirstV(), f);
    AllTiles(mem[..], before, f, done);
  }

  method TileRows(mem: array<int>, w: nat, h: nat, stride: nat, step: nat, cs: nat, ysub: nat,
                  firstU: nat, firstV: nat, ghost f: Layout) returns (ghost done: set<Sample>)
    requires f.Valid() && f.WholeRows() && f.Size() <= mem.Length && f.w == w && f.h == h && f.pitch == stride
    requires step == f.ChromaPitch() && cs == (if f.format.Semi() then 2 else 1) && ysub == f.format.Ysub()
    requires firstU == f.FirstU() && firstV == f.FirstV()
    modifies mem
    ensures TilesTo(mem[..], old(mem[..]), f, done, 0, h)
  {
    ghost var before := mem[..];
    done := {};
    var y, row, u, v := 0, 0, firstU, firstV;
    FirstTile(before, f);
    while y < h
      invariant y <= h && row == Times(y, stride) && TilesTo(mem[..], before, f, done, 0, y)
      invariant u == RowU(f, y) && v == RowV(f, y)
    {
      done := TileRow(mem, w, cs, f, before, done, y, row, u, v);
      row := row + stride;
      RowsNext(f, y);
      if (y + 1) % ysub == 0 {
        u, v := u + step, v + step;
      }
      y := y + 1;
    }
  }

  method TileRow(mem: array<int>, w: nat, cs: nat, ghost f: Layout, ghost before: seq<int>, ghost done: set<Sample>,
                 y: nat, row: nat, u: nat, v: nat) returns (ghost done': set<Sample>)
    requires f.Valid() && f.WholeRows() && f.Size() <= mem.Length && f.w == w && y < f.h
    requires TilesTo(mem[..], before, f, done, 0, y)
    requires cs == (if f.format.Semi() then 2 else 1) && row == Times(y, f.pitch)
    requires u == RowU(f, y) && v == RowV(f, y)
    modifies mem
    ensures TilesTo(mem[..], before, f, done', 0, y + 1)
  {
    done' := done;
    for x := 0 to w
      invariant TilesTo(mem[..], before, f, done', x, y)
    {
      done' := PutPixel(mem, before, f, done', x, y, row, u, v, cs, TileYuv(w, x, y));
    }
    NextRow(mem[..], before, f, done', y);
  }
}
