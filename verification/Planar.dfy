/** Where the samples of a planar or semi-planar YUV picture are: bo_create of buffers.c, and the
    pointers that the fill functions of pattern.c step through the buffer. */
module Planar {
  import opened Arith

  datatype Format = NV12 | NV21 | NV16 | NV61 | YUV420 | YVU420
  {
    // U and V alternate in one plane (chroma_stride is 2), or have a plane each.
    predicate Semi() {
      NV12? || NV21? || NV16? || NV61?
    }

    // V comes before U (YUV_YCrCb).
    predicate Swapped() {
      NV21? || NV61? || YVU420?
    }

    // ysub; xsub is always 2.
    function Ysub(): nat {
      if NV16? || NV61? then 1 else 2
    }
  }

  datatype Sample = Y(x: nat, y: nat) | U(i: nat, j: nat) | V(i: nat, j: nat)

  // y / ysub, without a division the solver has to think about.
  function Sub(y: nat, ysub: nat): nat {
    if ysub == 2 then y / 2 else y
  }

  // ---- bo_create ---------------------------------------------------------------------------------------

  function VirtualHeight(format: Format, h: nat): nat {
    if format.Ysub() == 2 then h * 3 / 2 else h * 2
  }

  datatype Layout = Layout(format: Format, w: nat, h: nat, pitch: nat)
  {
    predicate Valid() {
      pitch > 0 && pitch % 2 == 0 && w <= pitch
    }

    function ChromaPitch(): nat {
      if format.Semi() then pitch else pitch / 2
    }

    // The rows of a chroma plane that the fill functions touch.
    function ChromaRows(): nat {
      if format.Ysub() == 2 then (h + 1) / 2 else h
    }

    function Offset1(): nat {
      Times(h, pitch)
    }

    function Offset2(): nat {
      Offset1() + Times(h, pitch / 2) / 2
    }

    // Where the first U sample is, and the first V sample.
    function FirstU(): nat {
      if !format.Swapped() then Offset1() else if format.Semi() then Offset1() + 1 else Offset2()
    }

    function FirstV(): nat {
      if format.Swapped() then Offset1() else if format.Semi() then Offset1() + 1 else Offset2()
    }

    predicate Has(s: Sample) {
      match s
      case Y(x, y) => x < w && y < h
      case U(i, j) => 2 * i < w && j < ChromaRows()
      case V(i, j) => 2 * i < w && j < ChromaRows()
    }

    function Column(i: nat): nat {
      if format.Semi() then 2 * i else i
    }

    function At(s: Sample): nat {
      match s
      case Y(x, y) => Times(y, pitch) + x
      case U(i, j) => FirstU() + Times(j, ChromaPitch()) + Column(i)
      case V(i, j) => FirstV() + Times(j, ChromaPitch()) + Column(i)
    }

    function Size(): nat {
      Times(VirtualHeight(format, h), pitch)
    }

    // Rows of chroma are not cut in half.
    predicate WholeRows() {
      format.Ysub() == 2 ==> h % 2 == 0
    }
  }

  lemma {:induction false} TimesHalf(n: nat, p: nat)
    requires p % 2 == 0
    ensures 2 * Times(n, p / 2) == Times(n, p)
  {
    if n > 0 {
      TimesHalf(n - 1, p);
    }
  }

  /** Where the first samples of each format are: in the semi-planar formats U and V alternate from the end of
      the luma rows on, U first unless the format is one with V first; in the others one plane follows the other,
      and the second has a quarter of the luma samples. */
  lemma FirstSamples(f: Layout)
    requires f.Valid() && f.WholeRows()
    ensures var luma := f.h * f.pitch;
      match f.format
      case NV12 | NV16 => f.At(U(0, 0)) == luma && f.At(V(0, 0)) == luma + 1
      case NV21 | NV61 => f.At(V(0, 0)) == luma && f.At(U(0, 0)) == luma + 1
      case YUV420 => f.At(U(0, 0)) == luma && f.At(V(0, 0)) == luma + f.h / 2 * (f.pitch / 2)
      case YVU420 => f.At(V(0, 0)) == luma && f.At(U(0, 0)) == luma + f.h / 2 * (f.pitch / 2)
  {
    TimesIsProduct(f.h, f.pitch);
    if !f.format.Semi() {
      ThirdPlane(f);
      TimesIsProduct(f.h / 2, f.pitch / 2);
    }
  }

  /** And the steps from one sample to its neighbours: two bytes and a row of the buffer where U and V alternate,
      else one byte and half a row. */
  lemma NextSamples(f: Layout, i: nat, j: nat)
    requires f.Valid()
    ensures var column, row := if f.format.Semi() then 2 else 1, if f.format.Semi() then f.pitch else f.pitch / 2;
      && f.At(U(i + 1, j)) == f.At(U(i, j)) + column && f.At(V(i + 1, j)) == f.At(V(i, j)) + column
      && f.At(U(i, j + 1)) == f.At(U(i, j)) + row && f.At(V(i, j + 1)) == f.At(V(i, j)) + row
    ensures f.At(Y(i + 1, j)) == f.At(Y(i, j)) + 1 && f.At(Y(i, j + 1)) == f.At(Y(i, j)) + f.pitch
  {
  }

  // A cell in row y of n.
  lemma RowBound(y: nat, n: nat, p: nat, x: nat)
    requires y < n && x < p
    ensures Times(y, p) + x < Times(n, p)
  {
    TimesMonotone(y + 1, n, p);
  }

  lemma RowUnique(y: nat, y': nat, p: nat, x: nat, x': nat)
    requires x < p && x' < p && Times(y, p) + x == Times(y', p) + x'
    ensures y == y' && x == x'
  {
    if y < y' {
      RowBound(y, y', p, x);
    } else if y' < y {
      RowBound(y', y, p, x');
    }
  }

  // The offset of the third plane: half of the pitch, and half of the height.
  lemma ThirdPlane(f: Layout)
    requires f.Valid() && f.h % 2 == 0
    ensures f.Offset2() == f.Offset1() + Times(f.h / 2, f.pitch / 2)
  {
    TimesAdd(f.h / 2, f.h / 2, f.pitch / 2);
    assert f.h / 2 + f.h / 2 == f.h;
  }

  // Luma ends where the chroma begins, and the chroma planes end with the buffer.
  lemma Regions(f: Layout)
    requires f.Valid() && f.WholeRows()
    ensures f.Size() == f.Offset1() + Times(f.ChromaRows(), f.pitch)
    ensures !f.format.Semi() ==>
              && f.Offset2() == f.Offset1() + Times(f.ChromaRows(), f.ChromaPitch())
              && f.Size() == f.Offset2() + Times(f.ChromaRows(), f.ChromaPitch())
  {
    TimesAdd(f.h, f.ChromaRows(), f.pitch);
    if !f.format.Semi() {
      ThirdPlane(f);
      TimesHalf(f.ChromaRows(), f.pitch);
    }
  }

  // A chroma sample within its plane.
  lemma ChromaCell(f: Layout, i: nat, j: nat)
    requires f.Valid() && 2 * i < f.w && j < f.ChromaRows()
    ensures f.Column(i) + (if f.format.Semi() then 1 else 0) < f.ChromaPitch()
    ensures Times(j, f.ChromaPitch()) + f.Column(i) + (if f.format.Semi() then 1 else 0)
            < Times(f.ChromaRows(), f.ChromaPitch())
  {
    RowBound(j, f.ChromaRows(), f.ChromaPitch(), f.Column(i) + if f.format.Semi() then 1 else 0);
  }

  /** All samples are inside the buffer of pitch * virtual_height bytes. */
  lemma InBuffer(f: Layout, s: Sample)
    requires f.Valid() && f.WholeRows() && f.Has(s)
    ensures f.At(s) < f.Size()
    ensures s.Y? <==> f.At(s) < f.Offset1()
  {
    Regions(f);
    match s
    case Y(x, y) =>
      RowBound(y, f.h, f.pitch, x);
    case U(i, j) =>
      ChromaCell(f, i, j);
    case V(i, j) =>
      ChromaCell(f, i, j);
  }

  // U and V do not meet.
  lemma ChromaApart(f: Layout, i: nat, j: nat, i': nat, j': nat)
    requires f.Valid() && f.WholeRows() && f.Has(U(i, j)) && f.Has(V(i', j'))
    ensures f.At(U(i, j)) != f.At(V(i', j'))
  {
    Regions(f);
    ChromaCell(f, i, j);
    ChromaCell(f, i', j');
    if f.format.Semi() && f.At(U(i, j)) == f.At(V(i', j')) {
      var (d, d') := if f.format.Swapped() then (1, 0) else (0, 1);
      RowUnique(j, j', f.pitch, 2 * i + d, 2 * i' + d');
    }
  }

  /** No two samples share a byte. */
  lemma Apart(f: Layout, s: Sample, t: Sample)
    requires f.Valid() && f.WholeRows() && f.Has(s) && f.Has(t) && f.At(s) == f.At(t)
    ensures s == t
  {
    InBuffer(f, s);
    InBuffer(f, t);
    match s
    case Y(x, y) =>
      RowUnique(y, t.y, f.pitch, x, t.x);
    case U(i, j) =>
      if t.V? {
        ChromaApart(f, i, j, t.i, t.j);
      } else {
        ChromaCell(f, i, j);
        ChromaCell(f, t.i, t.j);
        RowUnique(j, t.j, f.ChromaPitch(), f.Column(i), f.Column(t.i));
      }
    case V(i, j) =>
      if t.U? {
        ChromaApart(f, t.i, t.j, i, j);
      } else {
        ChromaCell(f, i, j);
        ChromaCell(f, t.i, t.j);
        RowUnique(j, t.j, f.ChromaPitch(), f.Column(i), f.Column(t.i));
      }
  }

  // With an odd height the last row of chroma that is written is past the end.
  lemma LastRowOutside(f: Layout)
    requires f.Valid() && !f.WholeRows() && f.w > 0
    ensures exists s :: f.Has(s) && f.At(s) >= f.Size()
  {
    var r := f.h / 2;
    assert f.h == r + r + 1 && f.h * 3 / 2 == f.h + r;
    TimesAdd(f.h, r, f.pitch);
    var s := if f.format.Swapped() then U(0, r) else V(0, r);
    if !f.format.Semi() {
      TimesAdd(r, r + 1, f.pitch / 2);
      TimesHalf(r, f.pitch);
    }
    assert f.Has(s) && f.At(s) >= f.Size();
  }

  /** A picture that has samples at all fits into its buffer if and only if its height is even, or its
      chroma is not subsampled vertically. */
  lemma FitsIff(f: Layout)
    requires f.Valid()
    ensures (forall s :: f.Has(s) ==> f.At(s) < f.Size()) <==> f.WholeRows() || f.w == 0
  {
    if f.WholeRows() {
      forall s | f.Has(s)
        ensures f.At(s) < f.Size()
      {
        InBuffer(f, s);
      }
    } else if f.w > 0 {
      LastRowOutside(f);
    }
  }

  /** What bo_create works out before the buffer is mapped and filled: offsets and pitches of the planes, as
      far as the format has them. */
  method BoCreate(format: Format, w: nat, h: nat, pitch: nat)
      returns (virtualHeight: nat, offsets: seq<nat>, pitches: seq<nat>)
    ensures var f := Layout(format, w, h, pitch);
            && virtualHeight == VirtualHeight(format, h)
            && offsets == [0, f.Offset1()] + (if format.Semi() then [] else [f.Offset2()])
            && pitches == [pitch, f.ChromaPitch()] + (if format.Semi() then [] else [f.ChromaPitch()])
  {
    TimesIsProduct(h, pitch);
    TimesIsProduct(h, pitch / 2);
    virtualHeight := if format.NV16? || format.NV61? then h * 2 else h * 3 / 2;
    match format
    case NV12 | NV21 | NV16 | NV61 =>
      offsets, pitches := [0, pitch * h], [pitch, pitch];
    case YUV420 | YVU420 =>
      offsets, pitches := [0, pitch * h, pitch * h + pitch / 2 * h / 2], [pitch, pitch / 2, pitch / 2];
  }
}
