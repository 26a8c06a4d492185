/** The SMPTE test pattern of pattern.c: fill_smpte_c8 with its palette, and fill_smpte_rgb32. */
module Smpte {
  import opened Arith

  // A bar of the pattern: one of 7 at the top, 7 in the middle or 8 at the bottom.
  datatype Bar = Top(i: nat) | Middle(i: nat) | Bottom(i: nat)
  {
    predicate Valid() {
      match this
      case Top(i) => i < 7
      case Middle(i) => i < 7
      case Bottom(i) => i < 8
    }
  }

  // The third loop of the bottom rows divides by width / 7 if it has anything to do.
  predicate Drawable(w: nat, h: nat) {
    h == 0 || w * 5 / 7 == w * 6 / 7 || w / 7 > 0
  }

  function BottomBar(x: nat, w: nat): nat
    requires x < w && (w * 5 / 7 == w * 6 / 7 || w / 7 > 0)
  {
    if x < w * 5 / 7 then x * 4 / (w * 5 / 7)
    else if x < w * 6 / 7 then (x - w * 5 / 7) * 3 / (w / 7) + 4
    else 7
  }

  // The bar pixel (x, y) is in.
  function BarAt(x: nat, y: nat, w: nat, h: nat): Bar
    requires x < w && y < h && Drawable(w, h)
  {
    if y < h * 6 / 9 then Top(x * 7 / w)
    else if y < h * 7 / 9 then Middle(x * 7 / w)
    else Bottom(BottomBar(x, w))
  }

  /** The pattern can be drawn without dividing by 0 for all widths but 4, 5 and 6. */
  lemma DrawableIff(w: nat, h: nat)
    ensures Drawable(w, h) <==> h == 0 || w <= 3 || w >= 7
  {
  }

  lemma QuotientBelow(a: nat, d: nat, q: nat)
    requires d > 0 && a < q * d
    ensures a / d < q
  {
    if a / d >= q {
      MulMonotone(d, q, a / d);
    }
  }

  lemma BottomBound(x: nat, w: nat)
    requires x < w && (w * 5 / 7 == w * 6 / 7 || w / 7 > 0)
    ensures BottomBar(x, w) < 8
    ensures x < w * 5 / 7 ==> BottomBar(x, w) < 4
    ensures w * 5 / 7 <= x < w * 6 / 7 ==> 4 <= BottomBar(x, w)
  {
    if x < w * 5 / 7 {
      QuotientBelow(x * 4, w * 5 / 7, 4);
    } else if x < w * 6 / 7 {
      QuotientBelow((x - w * 5 / 7) * 3, w / 7, 4);
    }
  }

  /** Every pixel is in a bar that has a colour. */
  lemma BarsValid(x: nat, y: nat, w: nat, h: nat)
    requires x < w && y < h && Drawable(w, h)
    ensures BarAt(x, y, w, h).Valid()
  {
    QuotientBelow(x * 7, w, 7);
    if y >= h * 7 / 9 {
      BottomBound(x, w);
    }
  }

  /** The bars at the top take two thirds of the height, those in the middle a ninth, and all of them are equally
      wide: bar i has the columns from i sevenths of the width on. */
  lemma BarsAreEqual(x: nat, y: nat, w: nat, h: nat, i: nat)
    requires x < w && y < h && Drawable(w, h)
    ensures BarAt(x, y, w, h) == Top(i) <==> 3 * (y + 1) <= 2 * h && i * w <= 7 * x < (i + 1) * w
    ensures BarAt(x, y, w, h) == Middle(i) <==>
      3 * (y + 1) > 2 * h && 9 * (y + 1) <= 7 * h && i * w <= 7 * x < (i + 1) * w
    ensures BarAt(x, y, w, h).Bottom? <==> 9 * (y + 1) > 7 * h
  {
    QuotientIff(7 * x, w, i);
    assert x * 7 == 7 * x;
  }

  lemma QuotientIff(a: nat, d: nat, q: nat)
    requires d > 0
    ensures a / d == q <==> q * d <= a < (q + 1) * d
  {
    if q * d <= a < (q + 1) * d {
      DivUnique(a, d, q, a - q * d);
    }
  }

  /** At the bottom the first four bars share five sevenths of the width equally, and the last takes the last
      seventh. */
  lemma BottomBars(x: nat, y: nat, w: nat, h: nat, i: nat)
    requires x < w && y < h && Drawable(w, h) && 9 * (y + 1) > 7 * h && i < 4
    ensures x < w * 5 / 7 ==> (BarAt(x, y, w, h) == Bottom(i) <==> i * (w * 5 / 7) <= 4 * x < (i + 1) * (w * 5 / 7))
    ensures x >= w * 6 / 7 ==> BarAt(x, y, w, h) == Bottom(7)
    ensures w * 5 / 7 <= x < w * 6 / 7 ==>
      (BarAt(x, y, w, h) == Bottom(4 + i) <==> i * (w / 7) <= 3 * (x - w * 5 / 7) < (i + 1) * (w / 7))
  {
    if x < w * 5 / 7 {
      QuotientIff(x * 4, w * 5 / 7, i);
    } else if x < w * 6 / 7 {
      QuotientIff((x - w * 5 / 7) * 3, w / 7, i);
    }
  }

  /** The colours in the middle are those of the top from right to left, with black for every other one. */
  lemma MiddleMirrorsTop(i: nat)
    requires i < 7
    ensures MIDDLE[i] == if i % 2 == 0 then TOP[6 - i] else Rgb(19, 19, 19)
  {
  }

  /** The bars at the top are all mixtures of full red, green and blue; green is in the first four, red in the
      pairs, and blue in every other one. */
  lemma TopCounts(i: nat)
    requires i < 7
    ensures TOP[i] == Rgb(if i % 4 < 2 then 192 else 0, if i < 4 then 192 else 0, if i % 2 == 0 then 192 else 0)
  {
  }

  // ---- Colours ----------------------------------------------------------------------------------------

  datatype Rgb = Rgb(r: nat, g: nat, b: nat)
  datatype Rgba = Rgba(rgb: Rgb, a: nat)

  // What fill_smpte_c8 stores for a bar, ...
  function C8Value(bar: Bar): nat {
    match bar
    case Top(i) => i
    case Middle(i) => 7 + i
    case Bottom(i) => 14 + i
  }

  // ... and what fill_smpte_rgb32 stores for it, before the components are packed.
  const TOP := [Rgb(192, 192, 192), Rgb(192, 192, 0), Rgb(0, 192, 192), Rgb(0, 192, 0), Rgb(192, 0, 192),
                Rgb(192, 0, 0), Rgb(0, 0, 192)]
  const MIDDLE := [Rgb(0, 0, 192), Rgb(19, 19, 19), Rgb(192, 0, 192), Rgb(19, 19, 19), Rgb(0, 192, 192),
                   Rgb(19, 19, 19), Rgb(192, 192, 192)]
  const BOTTOM := [Rgb(0, 33, 76), Rgb(255, 255, 255), Rgb(50, 0, 106), Rgb(19, 19, 19), Rgb(9, 9, 9),
                   Rgb(19, 19, 19), Rgb(29, 29, 29), Rgb(19, 19, 19)]

  function TopColour(i: nat): Rgba
    requires i < 7
  {
    Rgba(TOP[i], 255)
  }

  function MiddleColour(i: nat): Rgba
    requires i < 7
  {
    Rgba(MIDDLE[i], 127)
  }

  function BottomColour(i: nat): Rgba
    requires i < 8
  {
    Rgba(BOTTOM[i], 255)
  }

  const NOTHING := Rgba(Rgb(0, 0, 0), 0)

  function RgbValue(bar: Bar): Rgba {
    match bar
    case Top(i) => if i < 7 then TopColour(i) else NOTHING
    case Middle(i) => if i < 7 then MiddleColour(i) else NOTHING
    case Bottom(i) => if i < 8 then BottomColour(i) else NOTHING
  }

  // ---- Drawing into a buffer ----------------------------------------------------------------------------

  // w x h pixels in rows that are stride pixels apart.
  datatype Frame = Frame(w: nat, h: nat, stride: nat)
  {
    predicate Valid(length: nat) {
      && 0 < stride && w <= stride && Drawable(w, h)
      && (h > 0 ==> Times(h - 1, stride) + w <= length)
    }

    // Cell i of the buffer holds a pixel above row y, or one in it left of x.
    predicate Passed(i: nat, x: nat, y: nat)
      requires stride > 0
    {
      Rem(i, stride) < w && (Quot(i, stride) < y || (Quot(i, stride) == y && Rem(i, stride) < x))
    }
  }

  // All pixels up to (x, y) have got their values, and nothing else has changed.
  ghost predicate Drawn<T>(now: seq<T>, before: seq<T>, f: Frame, value: Bar -> T, x: nat, y: nat)
    requires f.Valid(|before|) && x <= f.w && y <= f.h && (y == f.h ==> x == 0)
  {
    && |now| == |before|
    && forall i :: 0 <= i < |now| ==>
         now[i] == if f.Passed(i, x, y) then value(BarAt(Rem(i, f.stride), Quot(i, f.stride), f.w, f.h)) else before[i]
  }

  lemma Cell(f: Frame, length: nat, x: nat, y: nat)
    requires f.Valid(length) && x < f.w && y < f.h
    ensures Times(y, f.stride) + x < length
    ensures Quot(Times(y, f.stride) + x, f.stride) == y && Rem(Times(y, f.stride) + x, f.stride) == x
  {
    TimesMonotone(y, f.h - 1, f.stride);
    RemOf(y, f.stride, x);
    QuotOf(y, f.stride, x);
  }

  lemma {:induction false} QuotOf(q: nat, n: nat, x: nat)
    requires x < n
    ensures Quot(Times(q, n) + x, n) == q
  {
    if q > 0 {
      QuotOf(q - 1, n, x);
    }
  }

  // The cell is the only one of its row and column.
  lemma CellUnique(f: Frame, i: nat, x: nat, y: nat)
    requires f.stride > 0 && Rem(i, f.stride) == x && Quot(i, f.stride) == y
    ensures i == Times(y, f.stride) + x
  {
    QuotIsDivision(i, f.stride);
  }

  lemma DrawPixel<T>(now: seq<T>, was: seq<T>, before: seq<T>, f: Frame, value: Bar -> T, x: nat, y: nat)
    requires f.Valid(|before|) && x < f.w && y < f.h && Drawn(was, before, f, value, x, y)
    requires Times(y, f.stride) + x < |was|
    requires now == was[Times(y, f.stride) + x := value(BarAt(x, y, f.w, f.h))]
    ensures Drawn(now, before, f, value, x + 1, y)
  {
    Cell(f, |before|, x, y);
    forall i | 0 <= i < |now|
      ensures now[i] == if f.Passed(i, x + 1, y) then value(BarAt(Rem(i, f.stride), Quot(i, f.stride), f.w, f.h))
                        else before[i]
    {
      if Rem(i, f.stride) == x && Quot(i, f.stride) == y {
        CellUnique(f, i, x, y);
      } else {
        assert f.Passed(i, x + 1, y) == f.Passed(i, x, y);
      }
    }
  }

  lemma DrawRow<T>(now: seq<T>, before: seq<T>, f: Frame, value: Bar -> T, y: nat)
    requires f.Valid(|before|) && y < f.h && Drawn(now, before, f, value, f.w, y)
    ensures Drawn(now, before, f, value, 0, y + 1)
  {
    forall i | 0 <= i < |now|
      ensures f.Passed(i, 0, y + 1) == f.Passed(i, f.w, y)
    {
    }
  }

  lemma DrawNothing<T>(before: seq<T>, f: Frame, value: Bar -> T)
    requires f.Valid(|before|)
    ensures Drawn(before, before, f, value, 0, 0)
  {
  }

  // A store of the value the pattern has there.
  method PutPixel<T>(mem: array<T>, ghost before: seq<T>, ghost f: Frame, ghost value: Bar -> T,
                     x: nat, ghost y: nat, row: nat, v: T)
    requires f.Valid(|before|) && x < f.w && y < f.h && Drawn(mem[..], before, f, value, x, y)
    requires row == Times(y, f.stride) && v == value(BarAt(x, y, f.w, f.h))
    modifies mem
    ensures Drawn(mem[..], before, f, value, x + 1, y)
  {
    Cell(f, |before|, x, y);
    ghost var was := mem[..];
    mem[row + x] := v;
    DrawPixel(mem[..], was, before, f, value, x, y);
  }

  method FillC8Top(mem: array<nat>, w: nat, ghost before: seq<nat>, ghost f: Frame, ghost y: nat, row: nat)
    requires f.Valid(|before|) && f.w == w && y < f.h && y < f.h * 6 / 9 && row == Times(y, f.stride)
    requires Drawn(mem[..], before, f, C8Value, 0, y)
    modifies mem
    ensures Drawn(mem[..], before, f, C8Value, 0, y + 1)
  {
    var x := 0;
    while x < w
      invariant x <= w && Drawn(mem[..], before, f, C8Value, x, y)
    {
      BarsValid(x, y, w, f.h);
      PutPixel(mem, before, f, C8Value, x, y, row, x * 7 / w);
      x := x + 1;
    }
    DrawRow(mem[..], before, f, C8Value, y);
  }

  method FillC8Middle(mem: array<nat>, w: nat, ghost before: seq<nat>, ghost f: Frame, ghost y: nat, row: nat)
    requires f.Valid(|before|) && f.w == w && y < f.h && f.h * 6 / 9 <= y < f.h * 7 / 9 && row == Times(y, f.stride)
    requires Drawn(mem[..], before, f, C8Value, 0, y)
    modifies mem
    ensures Drawn(mem[..], before, f, C8Value, 0, y + 1)
  {
    var x := 0;
    while x < w
      invariant x <= w && Drawn(mem[..], before, f, C8Value, x, y)
    {
      BarsValid(x, y, w, f.h);
      PutPixel(mem, before, f, C8Value, x, y, row, 7 + x * 7 / w);
      x := x + 1;
    }
    DrawRow(mem[..], before, f, C8Value, y);
  }

  method FillC8Bottom(mem: array<nat>, w: nat, ghost before: seq<nat>, ghost f: Frame, ghost y: nat, row: nat)
    requires f.Valid(|before|) && f.w == w && y < f.h && f.h * 7 / 9 <= y && row == Times(y, f.stride)
    requires Drawn(mem[..], before, f, C8Value, 0, y)
    modifies mem
    ensures Drawn(mem[..], before, f, C8Value, 0, y + 1)
  {
    var x := 0;
    while x < w * 5 / 7
      invariant x <= w * 5 / 7 && Drawn(mem[..], before, f, C8Value, x, y)
    {
      BarsValid(x, y, w, f.h);
      PutPixel(mem, before, f, C8Value, x, y, row, 14 + x * 4 / (w * 5 / 7));
      x := x + 1;
    }
    while x < w * 6 / 7
      invariant w * 5 / 7 <= x <= w * 6 / 7 && Drawn(mem[..], before, f, C8Value, x, y)
    {
      BarsValid(x, y, w, f.h);
      PutPixel(mem, before, f, C8Value, x, y, row, 14 + ((x - w * 5 / 7) * 3 / (w / 7) + 4));
      x := x + 1;
    }
    while x < w
      invariant w * 6 / 7 <= x <= w && Drawn(mem[..], before, f, C8Value, x, y)
    {
      BarsValid(x, y, w, f.h);
      PutPixel(mem, before, f, C8Value, x, y, row, 14 + 7);
      x := x + 1;
    }
    DrawRow(mem[..], before, f, C8Value, y);
  }

  /** fill_smpte_c8. */
  method FillC8(mem: array<nat>, w: nat, h: nat, stride: nat)
    requires Frame(w, h, stride).Valid(mem.Length)
    modifies mem
    ensures Drawn(mem[..], old(mem[..]), Frame(w, h, stride), C8Value, 0, h)
  {
    ghost var f, before := Frame(w, h, stride), mem[..];
    DrawNothing(before, f, C8Value);
    var y, row := 0, 0;
    while y < h * 6 / 9
      invariant y <= h * 6 / 9 && row == Times(y, stride) && Drawn(mem[..], before, f, C8Value, 0, y)
    {
      FillC8Top(mem, w, before, f, y, row);
      y, row := y + 1, row + stride;
    }
    while y < h * 7 / 9
      invariant h * 6 / 9 <= y <= h * 7 / 9 && row == Times(y, stride) && Drawn(mem[..], before, f, C8Value, 0, y)
    {
      FillC8Middle(mem, w, before, f, y, row);
      y, row := y + 1, row + stride;
    }
    while y < h
      invariant h * 7 / 9 <= y <= h && row == Times(y, stride) && Drawn(mem[..], before, f, C8Value, 0, y)
    {
      FillC8Bottom(mem, w, before, f, y, row);
      y, row := y + 1, row + stride;
    }
  }

  method FillRgb32Top(mem: array<Rgba>, w: nat, ghost before: seq<Rgba>, ghost f: Frame, ghost y: nat, row: nat)
    requires f.Valid(|before|) && f.w == w && y < f.h && y < f.h * 6 / 9 && row == Times(y, f.stride)
    requires Drawn(mem[..], before, f, RgbValue, 0, y)
    modifies mem
    ensures Drawn(mem[..], before, f, RgbValue, 0, y + 1)
  {
    var x := 0;
    while x < w
      invariant x <= w && Drawn(mem[..], before, f, RgbValue, x, y)
    {
      BarsValid(x, y, w, f.h);
      PutPixel(mem, before, f, RgbValue, x, y, row, TopColour(x * 7 / w));
      x := x + 1;
    }
    DrawRow(mem[..], before, f, RgbValue, y);
  }

  method FillRgb32Middle(mem: array<Rgba>, w: nat, ghost before: seq<Rgba>, ghost f: Frame, ghost y: nat, row: nat)
    requires f.Valid(|before|) && f.w == w && y < f.h && f.h * 6 / 9 <= y < f.h * 7 / 9 && row == Times(y, f.stride)
    requires Drawn(mem[..], before, f, RgbValue, 0, y)
    modifies mem
    ensures Drawn(mem[..], before, f, RgbValue, 0, y + 1)
  {
    var x := 0;
    while x < w
      invariant x <= w && Drawn(mem[..], before, f, RgbValue, x, y)
    {
      BarsValid(x, y, w, f.h);
      PutPixel(mem, before, f, RgbValue, x, y, row, MiddleColour(x * 7 / w));
      x := x + 1;
    }
    DrawRow(mem[..], before, f, RgbValue, y);
  }

  method FillRgb32Bottom(mem: array<Rgba>, w: nat, ghost before: seq<Rgba>, ghost f: Frame, ghost y: nat, row: nat)
    requires f.Valid(|before|) && f.w == w && y < f.h && f.h * 7 / 9 <= y && row == Times(y, f.stride)
    requires Drawn(mem[..], before, f, RgbValue, 0, y)
    modifies mem
    ensures Drawn(mem[..], before, f, RgbValue, 0, y + 1)
  {
    var x := 0;
    while x < w * 5 / 7
      invariant x <= w * 5 / 7 && Drawn(mem[..], before, f, RgbValue, x, y)
    {
      BarsValid(x, y, w, f.h);
      PutPixel(mem, before, f, RgbValue, x, y, row, BottomColour(x * 4 / (w * 5 / 7)));
      x := x + 1;
    }
    while x < w * 6 / 7
      invariant w * 5 / 7 <= x <= w * 6 / 7 && Drawn(mem[..], before, f, RgbValue, x, y)
    {
      BarsValid(x, y, w, f.h);
      PutPixel(mem, before, f, RgbValue, x, y, row, BottomColour((x - w * 5 / 7) * 3 / (w / 7) + 4));
      x := x + 1;
    }
    while x < w
      invariant w * 6 / 7 <= x <= w && Drawn(mem[..], before, f, RgbValue, x, y)
    {
      BarsValid(x, y, w, f.h);
      PutPixel(mem, before, f, RgbValue, x, y, row, BottomColour(7));
      x := x + 1;
    }
    DrawRow(mem[..], before, f, RgbValue, y);
  }

  /** fill_smpte_rgb32, with rows that are stride pixels apart. */
  method FillRgb32(mem: array<Rgba>, w: nat, h: nat, stride: nat)
    requires Frame(w, h, stride).Valid(mem.Length)
    modifies mem
    ensures Drawn(mem[..], old(mem[..]), Frame(w, h, stride), RgbValue, 0, h)
  {
    ghost var f, before := Frame(w, h, stride), mem[..];
    DrawNothing(before, f, RgbValue);
    var y, row := 0, 0;
    while y < h * 6 / 9
      invariant y <= h * 6 / 9 && row == Times(y, stride) && Drawn(mem[..], before, f, RgbValue, 0, y)
    {
      FillRgb32Top(mem, w, before, f, y, row);
      y, row := y + 1, row + stride;
    }
    while y < h * 7 / 9
      invariant h * 6 / 9 <= y <= h * 7 / 9 && row == Times(y, stride) && Drawn(mem[..], before, f, RgbValue, 0, y)
    {
      FillRgb32Middle(mem, w, before, f, y, row);
      y, row := y + 1, row + stride;
    }
    while y < h
      invariant h * 7 / 9 <= y <= h && row == Times(y, stride) && Drawn(mem[..], before, f, RgbValue, 0, y)
    {
      FillRgb32Bottom(mem, w, before, f, y, row);
      y, row := y + 1, row + stride;
    }
  }

  // ---- The palette ----------------------------------------------------------------------------------------

  // A colour of 8 bits a component in one of 16.
  function Wide(c: Rgb): Rgb {
    Rgb(c.r * 256, c.g * 256, c.b * 256)
  }

  const BLACK := Rgb(0, 0, 0)

  // Entries from at on are the colours of a table.
  ghost predicate Holds(lut: seq<Rgb>, at: nat, table: seq<Rgb>) {
    at + |table| <= |lut| && forall i :: 0 <= i < |table| ==> lut[at + i] == Wide(table[i])
  }

  method GammaTop(lut: array<Rgb>)
    requires lut.Length >= 22
    modifies lut
    ensures Holds(lut[..], 0, TOP)
    ensures forall k :: 0 <= k < lut.Length && !(0 <= k < 7) ==> lut[k] == old(lut[k])
  {
    lut[0] := Wide(Rgb(192, 192, 192));
    lut[1] := Wide(Rgb(192, 192, 0));
    lut[2] := Wide(Rgb(0, 192, 192));
    lut[3] := Wide(Rgb(0, 192, 0));
    lut[4] := Wide(Rgb(192, 0, 192));
    lut[5] := Wide(Rgb(192, 0, 0));
    lut[6] := Wide(Rgb(0, 0, 192));
  }

  method GammaMiddle(lut: array<Rgb>)
    requires lut.Length >= 22
    modifies lut
    ensures Holds(lut[..], 7, MIDDLE)
    ensures forall k :: 0 <= k < lut.Length && !(7 <= k < 14) ==> lut[k] == old(lut[k])
  {
    lut[7] := Wide(Rgb(0, 0, 192));
    lut[8] := Wide(Rgb(19, 19, 19));
    lut[9] := Wide(Rgb(192, 0, 192));
    lut[10] := Wide(Rgb(19, 19, 19));
    lut[11] := Wide(Rgb(0, 192, 192));
    lut[12] := Wide(Rgb(19, 19, 19));
    lut[13] := Wide(Rgb(192, 192, 192));
  }

  method GammaBottom(lut: array<Rgb>)
    requires lut.Length >= 22
    modifies lut
    ensures Holds(lut[..], 14, BOTTOM)
    ensures forall k :: 0 <= k < lut.Length && !(14 <= k < 22) ==> lut[k] == old(lut[k])
  {
    lut[14] := Wide(Rgb(0, 33, 76));
    lut[15] := Wide(Rgb(255, 255, 255));
    lut[16] := Wide(Rgb(50, 0, 106));
    lut[17] := Wide(Rgb(19, 19, 19));
    lut[18] := Wide(Rgb(9, 9, 9));
    lut[19] := Wide(Rgb(19, 19, 19));
    lut[20] := Wide(Rgb(29, 29, 29));
    lut[21] := Wide(Rgb(19, 19, 19));
  }

  /** util_smpte_c8_gamma: nothing happens to a table that is too small. */
  method Gamma(lut: array<Rgb>)
    modifies lut
    ensures lut.Length < 22 ==> lut[..] == old(lut[..])
    ensures lut.Length >= 22 ==>
              && Holds(lut[..], 0, TOP) && Holds(lut[..], 7, MIDDLE) && Holds(lut[..], 14, BOTTOM)
              && forall k :: 22 <= k < lut.Length ==> lut[k] == BLACK
  {
    if lut.Length < 7 + 7 + 8 {
      return;
    }
    for k := 0 to lut.Length
      invariant forall j :: 0 <= j < k ==> lut[j] == BLACK
    {
      lut[k] := BLACK;
    }
    GammaTop(lut);
    GammaMiddle(lut);
    GammaBottom(lut);
  }

  /** The value fill_smpte_c8 stores for a bar is the number of the palette entry that has its colour. */
  lemma PaletteColour(lut: seq<Rgb>, bar: Bar)
    requires Holds(lut, 0, TOP) && Holds(lut, 7, MIDDLE) && Holds(lut, 14, BOTTOM) && bar.Valid()
    ensures C8Value(bar) < 22 <= |lut| && lut[C8Value(bar)] == Wide(RgbValue(bar).rgb)
  {
    match bar
    case Top(i) => assert lut[0 + i] == Wide(TOP[i]);
    case Middle(i) => assert lut[7 + i] == Wide(MIDDLE[i]);
    case Bottom(i) => assert lut[14 + i] == Wide(BOTTOM[i]);
  }

  /** Looked up in the palette, the indexed picture is the picture in colours, pixel by pixel. */
  lemma SamePicture(c8: seq<nat>, c8': seq<nat>, f: Frame, rgb: seq<Rgba>, rgb': seq<Rgba>, g: Frame,
                    lut: seq<Rgb>, x: nat, y: nat)
    requires f.Valid(|c8|) && g.Valid(|rgb|) && f.w == g.w && f.h == g.h && x < f.w && y < f.h
    requires Drawn(c8', c8, f, C8Value, 0, f.h) && Drawn(rgb', rgb, g, RgbValue, 0, g.h)
    requires Holds(lut, 0, TOP) && Holds(lut, 7, MIDDLE) && Holds(lut, 14, BOTTOM)
    ensures var i, j := Times(y, f.stride) + x, Times(y, g.stride) + x;
            && i < |c8'| && j < |rgb'| && c8'[i] < 22 <= |lut|
            && lut[c8'[i]] == Wide(rgb'[j].rgb)
  {
    Cell(f, |c8|, x, y);
    Cell(g, |rgb|, x, y);
    BarsValid(x, y, f.w, f.h);
    PaletteColour(lut, BarAt(x, y, f.w, f.h));
  }
}
