/** The A8 box blur of desktop/de/cdraw/cdraw.c: two sliding-window passes, three rounds, in
    place through a packed scratch buffer. The specification is the plain mean over an
    edge-clamped window; the methods keep a running sum, as the C does. */
module Blur {

  type Byte = x: int | 0 <= x < 256
  type Line = seq<Byte>
  type Image = seq<Line>

  // ---------------------------------------------------------------- one line

  function Clamp(i: int, n: nat): (k: nat)
    requires n > 0
    ensures k < n && (0 <= i < n ==> k == i) && (i < 0 ==> k == 0) && (i >= n ==> k == n - 1)
  {
    if i < 0 then 0 else if i >= n then n - 1 else i
  }

  /** The sum of the edge-clamped samples at lo, lo+1, ..., hi-1. */
  ghost function ClampSum(line: Line, lo: int, hi: int): int
    requires |line| > 0
    decreases hi - lo
  {
    if hi <= lo then 0 else ClampSum(line, lo, hi - 1) + line[Clamp(hi - 1, |line|)]
  }

  lemma {:induction false} SumBounds(line: Line, lo: int, hi: int, min: int, max: int)
    requires |line| > 0 && lo <= hi
    requires forall v :: v in line ==> min <= v <= max
    ensures min * (hi - lo) <= ClampSum(line, lo, hi) <= max * (hi - lo)
    decreases hi - lo
  {
    if lo < hi {
      SumBounds(line, lo, hi - 1, min, max);
      assert line[Clamp(hi - 1, |line|)] in line;
      assert min * (hi - lo) == min * (hi - 1 - lo) + min;
      assert max * (hi - lo) == max * (hi - 1 - lo) + max;
    }
  }

  lemma CancelLess(a: int, b: int, d: int)
    requires d > 0 && a * d < b * d
    ensures a < b
  {
  }

  /** C's s / d for s >= 0, counted out, which keeps the proofs about the loops linear. */
  ghost function Quotient(s: int, d: nat): (q: nat)
    requires d > 0
    decreases s
  {
    if s < d then 0 else 1 + Quotient(s - d, d)
  }

  lemma {:induction false} QuotientIsDiv(s: nat, d: nat)
    requires d > 0
    ensures Quotient(s, d) == s / d
  {
    var q := s / d;
    assert s == q * d + s % d;
    if s < d {
      CancelLess(q, 1, d);
    } else {
      QuotientIsDiv(s - d, d);
      var p := (s - d) / d;
      assert s - d == p * d + (s - d) % d;
      assert (p + 2) * d == p * d + 2 * d && (q + 1) * d == q * d + d;
      CancelLess(q, p + 2, d);
      CancelLess(p, q, d);
    }
  }

  lemma {:induction false} QuotientMonotone(s: int, t: int, d: nat)
    requires d > 0 && s <= t
    ensures Quotient(s, d) <= Quotient(t, d)
    decreases t
  {
    if s >= d { QuotientMonotone(s - d, t - d, d); }
  }

  lemma {:induction false} QuotientOfMultiple(k: nat, d: nat)
    requires d > 0
    ensures Quotient(k * d, d) == k
  {
    if k > 0 {
      assert k * d == (k - 1) * d + d;
      QuotientOfMultiple(k - 1, d);
    }
  }

  lemma QuotientWithin(s: int, d: nat, min: nat, max: nat)
    requires d > 0 && min * d <= s <= max * d
    ensures min <= Quotient(s, d) <= max
  {
    QuotientOfMultiple(min, d);
    QuotientOfMultiple(max, d);
    QuotientMonotone(min * d, s, d);
    QuotientMonotone(s, max * d, d);
  }

  /** The truncated mean of the window of 2r + 1 samples around c. */
  ghost function Mean(line: Line, c: int, r: nat): (m: Byte)
    requires |line| > 0
  {
    MeanWithin(line, c, r, 0, 255);
    Quotient(ClampSum(line, c - r, c + r + 1), 2 * r + 1)
  }

  lemma MeanWithin(line: Line, c: int, r: nat, min: nat, max: nat)
    requires |line| > 0
    requires forall v :: v in line ==> min <= v <= max
    ensures min <= Quotient(ClampSum(line, c - r, c + r + 1), 2 * r + 1) <= max
  {
    SumBounds(line, c - r, c + r + 1, min, max);
    QuotientWithin(ClampSum(line, c - r, c + r + 1), 2 * r + 1, min, max);
  }

  /** What the C stores: the running sum divided, cast to uint8_t. The cast loses nothing. */
  lemma StoredMean(line: Line, c: int, r: nat, s: int, div: int)
    requires |line| > 0 && s == ClampSum(line, c - r, c + r + 1) && div == 2 * r + 1
    ensures (s / div) % 256 == Mean(line, c, r)
  {
    SumBounds(line, c - r, c + r + 1, 0, 255);
    QuotientIsDiv(s, div);
    MeanWithin(line, c, r, 0, 255);
  }

  ghost function BoxLine(line: Line, r: nat): (out: Line)
    ensures |out| == |line|
  {
    seq(|line|, c requires 0 <= c < |line| => Mean(line, c, r))
  }

  /** Taking the first sample off a window instead of the last. */
  lemma {:induction false} SumFront(line: Line, lo: int, hi: int)
    requires |line| > 0 && lo < hi
    ensures ClampSum(line, lo, hi) == line[Clamp(lo, |line|)] + ClampSum(line, lo + 1, hi)
    decreases hi - lo
  {
    if lo + 1 < hi { SumFront(line, lo, hi - 1); }
  }

  /** One step of the sliding window: add the sample entering, subtract the one leaving. */
  lemma Slide(line: Line, c: nat, r: nat)
    requires c < |line|
    ensures ClampSum(line, c + 1 - r, c + 1 + r + 1) == ClampSum(line, c - r, c + r + 1)
         + line[if c + r + 1 >= |line| then |line| - 1 else c + r + 1] - line[if c - r < 0 then 0 else c - r]
  {
    SumFront(line, c - r, c + r + 2);
  }

  // --------------------------------------------------------------- whole images

  ghost predicate Rect(img: Image, w: nat) {
    forall y :: 0 <= y < |img| ==> |img[y]| == w
  }

  ghost function Column(img: Image, w: nat, x: nat): (col: Line)
    requires Rect(img, w) && x < w
    ensures |col| == |img|
  {
    seq(|img|, y requires 0 <= y < |img| => img[y][x])
  }

  ghost function HPass(img: Image, r: nat): (out: Image)
    ensures |out| == |img|
    ensures forall w: nat :: Rect(img, w) ==> Rect(out, w)
  {
    seq(|img|, y requires 0 <= y < |img| => BoxLine(img[y], r))
  }

  ghost function VPass(img: Image, w: nat, r: nat): (out: Image)
    requires Rect(img, w)
    ensures |out| == |img| && Rect(out, w)
  {
    seq(|img|, y requires 0 <= y < |img| =>
      seq(w, x requires 0 <= x < w => Mean(Column(img, w, x), y, r)))
  }

  ghost function Rounds(img: Image, w: nat, r: nat, n: nat): (out: Image)
    requires Rect(img, w)
    ensures |out| == |img| && Rect(out, w)
    decreases n
  {
    if n == 0 then img else VPass(HPass(Rounds(img, w, r, n - 1), r), w, r)
  }

  /** What the whole blur computes: nothing for a radius of 0 or less, else three rounds of
      vertical-after-horizontal means with window radius radius / 3 + 1. */
  ghost function Blurred(img: Image, w: nat, radius: int): (out: Image)
    requires Rect(img, w)
    ensures |out| == |img| && Rect(out, w)
  {
    if radius <= 0 then img else Rounds(img, w, radius / 3 + 1, 3)
  }

  /** m is s / d, rounded down. */
  ghost predicate IsMean(m: Byte, s: int, d: nat) { m * d <= s < (m + 1) * d }

  /** Every pixel is the mean of the 2r + 1 pixels around it in its row, those past an end being the end. */
  ghost predicate AlongRows(img: Image, out: Image, w: nat, r: nat)
    requires Rect(img, w) && Rect(out, w)
  {
    |out| == |img| &&
    forall y, x :: 0 <= y < |img| && 0 <= x < w ==> IsMean(out[y][x], ClampSum(img[y], x - r, x + r + 1), 2 * r + 1)
  }

  /** The same in its column. */
  ghost predicate AlongColumns(img: Image, out: Image, w: nat, r: nat)
    requires Rect(img, w) && Rect(out, w)
  {
    |out| == |img| &&
    forall y, x :: 0 <= y < |img| && 0 <= x < w ==>
      IsMean(out[y][x], ClampSum(Column(img, w, x), y - r, y + r + 1), 2 * r + 1)
  }

  lemma {:induction false} QuotientIsMean(s: nat, d: nat)
    requires d > 0
    ensures Quotient(s, d) * d <= s < (Quotient(s, d) + 1) * d
  {
    if s >= d {
      QuotientIsMean(s - d, d);
      var q := Quotient(s - d, d);
      assert (q + 1) * d == q * d + d && (q + 2) * d == (q + 1) * d + d;
    }
  }

  lemma MeanIs(line: Line, c: int, r: nat)
    requires |line| > 0
    ensures IsMean(Mean(line, c, r), ClampSum(line, c - r, c + r + 1), 2 * r + 1)
  {
    SumBounds(line, c - r, c + r + 1, 0, 255);
    QuotientIsMean(ClampSum(line, c - r, c + r + 1), 2 * r + 1);
  }

  lemma HPassIs(img: Image, w: nat, r: nat)
    requires Rect(img, w)
    ensures AlongRows(img, HPass(img, r), w, r)
  {
    var out := HPass(img, r);
    forall y, x | 0 <= y < |img| && 0 <= x < w ensures IsMean(out[y][x], ClampSum(img[y], x - r, x + r + 1), 2 * r + 1) {
      MeanIs(img[y], x, r);
      assert out[y][x] == Mean(img[y], x, r);
    }
  }

  lemma VPassIs(img: Image, w: nat, r: nat)
    requires Rect(img, w)
    ensures AlongColumns(img, VPass(img, w, r), w, r)
  {
    var out := VPass(img, w, r);
    forall y, x | 0 <= y < |img| && 0 <= x < w
      ensures IsMean(out[y][x], ClampSum(Column(img, w, x), y - r, y + r + 1), 2 * r + 1)
    {
      MeanIs(Column(img, w, x), y, r);
      assert out[y][x] == Mean(Column(img, w, x), y, r);
    }
  }

  /** A blur is along the rows and then along the columns, three times over; with no radius it is nothing. */
  lemma ThreeRounds(img: Image, w: nat, radius: int) returns (p: Image, a: Image, q: Image, b: Image, s: Image)
    requires Rect(img, w)
    ensures Rect(p, w) && Rect(a, w) && Rect(q, w) && Rect(b, w) && Rect(s, w)
    ensures var r := radius / 3 + 1; radius > 0 ==>
      && AlongRows(img, p, w, r) && AlongColumns(p, a, w, r)
      && AlongRows(a, q, w, r) && AlongColumns(q, b, w, r)
      && AlongRows(b, s, w, r) && AlongColumns(s, Blurred(img, w, radius), w, r)
    ensures radius <= 0 ==> Blurred(img, w, radius) == img
  {
    if radius <= 0 { return img, img, img, img, img; }
    var r := radius / 3 + 1;
    p := HPass(img, r);
    a := VPass(p, w, r);
    q := HPass(a, r);
    b := VPass(q, w, r);
    s := HPass(b, r);
    HPassIs(img, w, r);
    VPassIs(p, w, r);
    HPassIs(a, w, r);
    VPassIs(q, w, r);
    HPassIs(b, w, r);
    VPassIs(s, w, r);
    assert Rounds(img, w, r, 1) == a by { assert Rounds(img, w, r, 0) == img; }
    assert Rounds(img, w, r, 2) == b;
    assert Rounds(img, w, r, 3) == VPass(s, w, r);
  }

  // -------------------------------------------------- images inside strided buffers

  /** y * stride, by repeated addition: the proofs about offsets then stay linear. */
  function Start(y: nat, stride: nat): (o: nat)
  {
    if y == 0 then 0 else Start(y - 1, stride) + stride
  }

  function At(y: nat, x: nat, stride: nat): nat { Start(y, stride) + x }

  lemma {:induction false} StartIsProduct(y: nat, stride: nat)
    ensures Start(y, stride) == y * stride
  {
    if y > 0 {
      StartIsProduct(y - 1, stride);
      assert y * stride == (y - 1) * stride + stride;
    }
  }

  lemma {:induction false} StartUp(y: nat, z: nat, stride: nat)
    requires y < z
    ensures Start(y, stride) + stride <= Start(z, stride)
  {
    if y + 1 < z { StartUp(y, z - 1, stride); }
  }

  ghost predicate Fits(len: nat, w: nat, h: nat, stride: nat) {
    w <= stride && (w > 0 && h > 0 ==> At(h - 1, w, stride) <= len)
  }

  lemma RowFits(len: nat, w: nat, h: nat, stride: nat, y: nat)
    requires Fits(len, w, h, stride) && w > 0 && y < h
    ensures At(y, w, stride) <= len
  {
    if y < h - 1 { StartUp(y, h - 1, stride); }
  }

  /** Two pixels in different places are different bytes. */
  lemma Apart(y: nat, x: nat, y': nat, x': nat, stride: nat)
    requires x < stride && x' < stride && (y != y' || x != x')
    ensures At(y, x, stride) != At(y', x', stride)
  {
    if y < y' { StartUp(y, y', stride); } else if y' < y { StartUp(y', y, stride); }
  }

  /** Whether byte k of a strided buffer is a pixel of the w x h image, not padding. */
  ghost predicate IsPixel(k: int, w: nat, h: nat, stride: nat) {
    exists y, x :: 0 <= y < h && 0 <= x < w && At(y, x, stride) == k
  }

  ghost predicate OnColumn(k: int, x: nat, h: nat, stride: nat) {
    exists y :: 0 <= y < h && At(y, x, stride) == k
  }

  ghost predicate OnRow(k: int, y: nat, w: nat) {
    At(y, 0, w) <= k < At(y, w, w)
  }

  lemma PixelIn(k: int, w: nat, h: nat, stride: nat, y: nat)
    requires y < h && At(y, 0, stride) <= k < At(y, w, stride)
    ensures IsPixel(k, w, h, stride)
  {
    assert At(y, k - At(y, 0, stride), stride) == k;
  }

  ghost function Row(buf: seq<Byte>, w: nat, h: nat, stride: nat, y: nat): (row: Line)
    requires w > 0 && Fits(|buf|, w, h, stride) && y < h
    ensures |row| == w
  {
    RowFits(|buf|, w, h, stride, y);
    buf[At(y, 0, stride)..At(y, w, stride)]
  }

  /** The h rows of w bytes that start every stride bytes. */
  ghost function Rows(buf: seq<Byte>, w: nat, h: nat, stride: nat): (img: Image)
    requires w > 0 && Fits(|buf|, w, h, stride)
    ensures |img| == h && Rect(img, w)
  {
    seq(h, y requires 0 <= y < h => Row(buf, w, h, stride, y))
  }

  lemma RowAt(buf: seq<Byte>, w: nat, h: nat, stride: nat, y: nat, x: nat)
    requires w > 0 && Fits(|buf|, w, h, stride) && y < h && x < w
    ensures At(y, x, stride) < |buf| && Rows(buf, w, h, stride)[y][x] == buf[At(y, x, stride)]
  {
    RowFits(|buf|, w, h, stride, y);
  }

  // ----------------------------------------------------------------- the C code

  /** The window around x = 0, which is where the running sum starts. */
  method FirstRowSum(src: array<Byte>, w: nat, stride: nat, r: int, y: nat, ghost line: Line) returns (s: int)
    requires r >= 0 && w > 0 && |line| == w && At(y, w, stride) <= src.Length
    requires forall x :: 0 <= x < w ==> src[At(y, x, stride)] == line[x]
    ensures s == ClampSum(line, -r, r + 1)
  {
    s := 0;
    for x: int := -r to r + 1
      invariant s == ClampSum(line, -r, x)
    {
      s := s + src[At(y, if x < 0 then 0 else if x >= w then w - 1 else x, stride)];
    }
  }

  /** One row of box_h: the running sum slides over row y of src, which holds `line`. */
  method BoxHRow(src: array<Byte>, dst: array<Byte>, w: nat, stride: nat, r: int, y: nat, ghost line: Line)
    requires r >= 0 && w > 0 && src != dst && |line| == w
    requires At(y, w, stride) <= src.Length && At(y, w, w) <= dst.Length
    requires forall x :: 0 <= x < w ==> src[At(y, x, stride)] == line[x]
    modifies dst
    ensures forall x :: 0 <= x < w ==> dst[At(y, x, w)] == Mean(line, x, r)
    ensures forall k :: 0 <= k < dst.Length && !OnRow(k, y, w) ==> dst[k] == old(dst[k])
  {
    var div := 2 * r + 1;
    var s := FirstRowSum(src, w, stride, r, y, line);
    for x := 0 to w
      invariant forall k :: 0 <= k < w ==> src[At(y, k, stride)] == line[k]
      invariant s == ClampSum(line, x - r, x + r + 1)
      invariant forall j :: 0 <= j < x ==> dst[At(y, j, w)] == Mean(line, j, r)
      invariant forall k :: 0 <= k < dst.Length && !OnRow(k, y, w) ==> dst[k] == old(dst[k])
    {
      StoredMean(line, x, r, s, div);
      dst[At(y, x, w)] := (s / div) % 256;
      var add, sub := x + r + 1, x - r;
      Slide(line, x, r);
      var right, left := if add >= w then w - 1 else add, if sub < 0 then 0 else sub;
      s := s + src[At(y, right, stride)] - src[At(y, left, stride)];
    }
  }

  /** With row y written and the others left alone, the rows up to y are done. */
  lemma OneRowMore(before: seq<Byte>, now: seq<Byte>, w: nat, h: nat, r: nat, y: nat, img: Image)
    requires w > 0 && y < h == |img| && Rect(img, w) && |before| == |now| && Fits(|now|, w, h, w)
    requires forall j, x :: 0 <= j < y && 0 <= x < w ==> Rows(before, w, h, w)[j][x] == Mean(img[j], x, r)
    requires At(y, w, w) <= |now| && forall x :: 0 <= x < w ==> now[At(y, x, w)] == Mean(img[y], x, r)
    requires forall k :: 0 <= k < |now| && !OnRow(k, y, w) ==> now[k] == before[k]
    ensures forall j, x :: 0 <= j <= y && 0 <= x < w ==> Rows(now, w, h, w)[j][x] == Mean(img[j], x, r)
  {
    forall j, x | 0 <= j <= y && 0 <= x < w ensures Rows(now, w, h, w)[j][x] == Mean(img[j], x, r) {
      RowAt(now, w, h, w, j, x);
      if j < y {
        RowAt(before, w, h, w, j, x);
        StartUp(j, y, w);
      }
    }
  }

  method BoxH(src: array<Byte>, dst: array<Byte>, w: nat, h: nat, stride: nat, r: nat)
    requires w > 0 && h > 0 && Fits(src.Length, w, h, stride) && Fits(dst.Length, w, h, w) && src != dst
    modifies dst
    ensures Rows(dst[..], w, h, w) == HPass(Rows(src[..], w, h, stride), r)
    ensures forall k :: 0 <= k < dst.Length && !IsPixel(k, w, h, w) ==> dst[k] == old(dst[k])
  {
    ghost var img := Rows(src[..], w, h, stride);
    for y := 0 to h
      invariant forall j, x :: 0 <= j < y && 0 <= x < w ==> Rows(dst[..], w, h, w)[j][x] == Mean(img[j], x, r)
      invariant forall k :: 0 <= k < dst.Length && !IsPixel(k, w, h, w) ==> dst[k] == old(dst[k])
    {
      ghost var before := dst[..];
      RowFits(src.Length, w, h, stride, y);
      RowFits(dst.Length, w, h, w, y);
      forall x | 0 <= x < w ensures src[At(y, x, stride)] == img[y][x] {
        RowAt(src[..], w, h, stride, y, x);
      }
      BoxHRow(src, dst, w, stride, r, y, img[y]);
      OneRowMore(before, dst[..], w, h, r, y, img);
      forall k | 0 <= k < dst.Length && !IsPixel(k, w, h, w) ensures dst[k] == before[k] {
        if OnRow(k, y, w) { PixelIn(k, w, h, w, y); }
      }
    }
    RowsAre(dst[..], w, h, w, HPass(img, r));
  }

  lemma RowsAre(buf: seq<Byte>, w: nat, h: nat, stride: nat, img: Image)
    requires w > 0 && Fits(|buf|, w, h, stride) && |img| == h && Rect(img, w)
    requires forall y, x :: 0 <= y < h && 0 <= x < w ==> Rows(buf, w, h, stride)[y][x] == img[y][x]
    ensures Rows(buf, w, h, stride) == img
  {
    forall y | 0 <= y < h ensures Rows(buf, w, h, stride)[y] == img[y] {
    }
  }

  method FirstColumnSum(src: array<Byte>, w: nat, h: nat, r: int, x: nat, ghost col: Line) returns (s: int)
    requires r >= 0 && h > 0 && |col| == h
    requires forall y :: 0 <= y < h ==> At(y, x, w) < src.Length && src[At(y, x, w)] == col[y]
    ensures s == ClampSum(col, -r, r + 1)
  {
    s := 0;
    for y: int := -r to r + 1
      invariant s == ClampSum(col, -r, y)
    {
      s := s + src[At(if y < 0 then 0 else if y >= h then h - 1 else y, x, w)];
    }
  }

  /** One column of box_v: from column x of the packed src, which holds `col`, to column x of dst. */
  method BoxVColumn(src: array<Byte>, dst: array<Byte>, w: nat, h: nat, stride: nat, r: int, x: nat,
                    ghost col: Line)
    requires r >= 0 && x < w <= stride && h > 0 && src != dst && |col| == h
    requires forall y :: 0 <= y < h ==> At(y, x, w) < src.Length && src[At(y, x, w)] == col[y]
    requires forall y :: 0 <= y < h ==> At(y, x, stride) < dst.Length
    modifies dst
    ensures forall y :: 0 <= y < h ==> dst[At(y, x, stride)] == Mean(col, y, r)
    ensures forall k :: 0 <= k < dst.Length && !OnColumn(k, x, h, stride) ==> dst[k] == old(dst[k])
  {
    var div := 2 * r + 1;
    var s := FirstColumnSum(src, w, h, r, x, col);
    for y := 0 to h
      invariant forall k :: 0 <= k < h ==> src[At(k, x, w)] == col[k]
      invariant s == ClampSum(col, y - r, y + r + 1)
      invariant forall j :: 0 <= j < y ==> dst[At(j, x, stride)] == Mean(col, j, r)
      invariant forall k :: 0 <= k < dst.Length && !OnColumn(k, x, h, stride) ==> dst[k] == old(dst[k])
    {
      StoredMean(col, y, r, s, div);
      forall j | 0 <= j < y ensures At(j, x, stride) != At(y, x, stride) {
        Apart(j, x, y, x, stride);
      }
      dst[At(y, x, stride)] := (s / div) % 256;
      var add, sub := y + r + 1, y - r;
      Slide(col, y, r);
      var down, up := if add >= h then h - 1 else add, if sub < 0 then 0 else sub;
      s := s + src[At(down, x, w)] - src[At(up, x, w)];
    }
  }

  method BoxV(src: array<Byte>, dst: array<Byte>, w: nat, h: nat, stride: nat, r: nat)
    requires w > 0 && h > 0 && Fits(src.Length, w, h, w) && Fits(dst.Length, w, h, stride) && src != dst
    modifies dst
    ensures Rows(dst[..], w, h, stride) == VPass(Rows(src[..], w, h, w), w, r)
    ensures forall k :: 0 <= k < dst.Length && !IsPixel(k, w, h, stride) ==> dst[k] == old(dst[k])
  {
    ghost var img := Rows(src[..], w, h, w);
    for x := 0 to w
      invariant forall y, j :: 0 <= y < h && 0 <= j < x ==>
        Rows(dst[..], w, h, stride)[y][j] == Mean(Column(img, w, j), y, r)
      invariant forall k :: 0 <= k < dst.Length && !IsPixel(k, w, h, stride) ==> dst[k] == old(dst[k])
    {
      ghost var before := dst[..];
      forall y | 0 <= y < h
        ensures At(y, x, w) < src.Length && src[At(y, x, w)] == img[y][x] && At(y, x, stride) < dst.Length
      {
        RowAt(src[..], w, h, w, y, x);
        RowFits(dst.Length, w, h, stride, y);
      }
      BoxVColumn(src, dst, w, h, stride, r, x, Column(img, w, x));
      forall y, j | 0 <= y < h && 0 <= j <= x
        ensures Rows(dst[..], w, h, stride)[y][j] == Mean(Column(img, w, j), y, r)
      {
        RowAt(dst[..], w, h, stride, y, j);
        if j < x {
          RowAt(before, w, h, stride, y, j);
          forall y' | 0 <= y' < h ensures At(y', x, stride) != At(y, j, stride) {
            Apart(y', x, y, j, stride);
          }
          assert !OnColumn(At(y, j, stride), x, h, stride);
        }
      }
    }
    RowsAre(dst[..], w, h, stride, VPass(img, w, r));
  }

  lemma PixelBelow(k: int, w: nat, h: nat)
    requires w > 0 && IsPixel(k, w, h, w)
    ensures k < w * h
  {
    var y, x :| 0 <= y < h && 0 <= x < w && At(y, x, w) == k;
    StartUp(y, h, w);
    StartIsProduct(h, w);
  }

  /** cd_blur_a8: blurs the w x h image inside `a` in place and leaves every padding byte alone. */
  method CdBlurA8(a: array<Byte>, scratch: array<Byte>, w: int, h: int, stride: nat, radius: int)
    requires radius > 0 && w > 0 && h > 0 ==>
      Fits(a.Length, w, h, stride) && w * h <= scratch.Length && a != scratch
    modifies a, scratch
    ensures radius > 0 && w > 0 && h > 0 ==>
      && Rows(a[..], w, h, stride) == Blurred(Rows(old(a[..]), w, h, stride), w, radius)
      && (forall k :: 0 <= k < a.Length && !IsPixel(k, w, h, stride) ==> a[k] == old(a[k]))
      && (forall k :: w * h <= k < scratch.Length ==> scratch[k] == old(scratch[k]))
    ensures radius <= 0 || w <= 0 || h <= 0 ==> a[..] == old(a[..]) && scratch[..] == old(scratch[..])
  {
    if radius <= 0 || w <= 0 || h <= 0 { return; }
    var r := radius / 3 + 1;
    StartIsProduct(h, w);
    ghost var img := Rows(a[..], w, h, stride);
    for pass := 0 to 3
      invariant Rows(a[..], w, h, stride) == Rounds(img, w, r, pass)
      invariant forall k :: 0 <= k < a.Length && !IsPixel(k, w, h, stride) ==> a[k] == old(a[k])
      invariant forall k :: w * h <= k < scratch.Length ==> scratch[k] == old(scratch[k])
    {
      ghost var before := scratch[..];
      BoxH(a, scratch, w, h, stride, r);
      forall k | w * h <= k < scratch.Length ensures scratch[k] == before[k] {
        if IsPixel(k, w, h, w) { PixelBelow(k, w, h); }
      }
      BoxV(scratch, a, w, h, stride, r);
    }
  }

  /** Surface::blur_a8: the scratch it allocates is always big enough for cd_blur_a8. */
  method BlurA8(data: array<Byte>, w: int, h: int, stride: nat, radius: int)
    requires w > 0 && h > 0 ==> Fits(data.Length, w, h, stride)
    modifies data
    ensures radius > 0 && w > 0 && h > 0 ==>
      && Rows(data[..], w, h, stride) == Blurred(Rows(old(data[..]), w, h, stride), w, radius)
      && (forall k :: 0 <= k < data.Length && !IsPixel(k, w, h, stride) ==> data[k] == old(data[k]))
    ensures radius <= 0 || w <= 0 || h <= 0 ==> data[..] == old(data[..])
  {
    var sw, sh := if w < 0 then 0 else w, if h < 0 then 0 else h;
    assert 0 <= sw * sh;
    var scratch := new Byte[sw * sh](_ => 0);
    CdBlurA8(data, scratch, w, h, stride, radius);
  }

  // ------------------------------------------------------------ what a blur keeps

  ghost predicate LineAtMost(a: Line, b: Line) {
    |a| == |b| && forall i :: 0 <= i < |a| ==> a[i] <= b[i]
  }

  ghost predicate ImageAtMost(a: Image, b: Image) {
    |a| == |b| && forall y :: 0 <= y < |a| ==> LineAtMost(a[y], b[y])
  }

  lemma {:induction false} SumMonotone(a: Line, b: Line, lo: int, hi: int)
    requires |a| > 0 && LineAtMost(a, b)
    ensures ClampSum(a, lo, hi) <= ClampSum(b, lo, hi)
    decreases hi - lo
  {
    if lo < hi { SumMonotone(a, b, lo, hi - 1); }
  }

  lemma MeanMonotone(a: Line, b: Line, c: int, r: nat)
    requires |a| > 0 && LineAtMost(a, b)
    ensures Mean(a, c, r) <= Mean(b, c, r)
  {
    SumMonotone(a, b, c - r, c + r + 1);
    QuotientMonotone(ClampSum(a, c - r, c + r + 1), ClampSum(b, c - r, c + r + 1), 2 * r + 1);
  }

  lemma HPassMonotone(a: Image, b: Image, w: nat, r: nat)
    requires Rect(a, w) && Rect(b, w) && ImageAtMost(a, b)
    ensures ImageAtMost(HPass(a, r), HPass(b, r))
  {
    forall y, x | 0 <= y < |a| && 0 <= x < w ensures HPass(a, r)[y][x] <= HPass(b, r)[y][x] {
      MeanMonotone(a[y], b[y], x, r);
    }
    assert Rect(HPass(a, r), w) && Rect(HPass(b, r), w);
  }

  lemma VPassMonotone(a: Image, b: Image, w: nat, r: nat)
    requires Rect(a, w) && Rect(b, w) && ImageAtMost(a, b)
    ensures ImageAtMost(VPass(a, w, r), VPass(b, w, r))
  {
    forall y, x | 0 <= y < |a| && 0 <= x < w ensures VPass(a, w, r)[y][x] <= VPass(b, w, r)[y][x] {
      forall j | 0 <= j < |a| ensures Column(a, w, x)[j] <= Column(b, w, x)[j] {
        assert LineAtMost(a[j], b[j]);
      }
      MeanMonotone(Column(a, w, x), Column(b, w, x), y, r);
    }
  }

  lemma {:induction false} RoundsMonotone(a: Image, b: Image, w: nat, r: nat, n: nat)
    requires Rect(a, w) && Rect(b, w) && ImageAtMost(a, b)
    ensures ImageAtMost(Rounds(a, w, r, n), Rounds(b, w, r, n))
  {
    if n > 0 {
      RoundsMonotone(a, b, w, r, n - 1);
      var p, q := Rounds(a, w, r, n - 1), Rounds(b, w, r, n - 1);
      HPassMonotone(p, q, w, r);
      VPassMonotone(HPass(p, r), HPass(q, r), w, r);
    }
  }

  /** A brighter image never blurs to a darker pixel. */
  lemma BlurMonotone(a: Image, b: Image, w: nat, radius: int)
    requires Rect(a, w) && Rect(b, w) && ImageAtMost(a, b)
    ensures ImageAtMost(Blurred(a, w, radius), Blurred(b, w, radius))
  {
    if radius > 0 { RoundsMonotone(a, b, w, radius / 3 + 1, 3); }
  }

  ghost predicate Within(img: Image, min: nat, max: nat) {
    forall y, x :: 0 <= y < |img| && 0 <= x < |img[y]| ==> min <= img[y][x] <= max
  }

  lemma RoundWithin(img: Image, w: nat, r: nat, min: nat, max: nat)
    requires Rect(img, w) && Within(img, min, max)
    ensures Within(VPass(HPass(img, r), w, r), min, max)
  {
    var mid := HPass(img, r);
    forall y, x | 0 <= y < |mid| && 0 <= x < w ensures min <= mid[y][x] <= max {
      MeanWithin(img[y], x, r, min, max);
    }
    assert Rect(mid, w);
    forall y, x | 0 <= y < |mid| && 0 <= x < w ensures min <= VPass(mid, w, r)[y][x] <= max {
      MeanWithin(Column(mid, w, x), y, r, min, max);
    }
  }

  lemma {:induction false} RoundsWithin(img: Image, w: nat, r: nat, n: nat, min: nat, max: nat)
    requires Rect(img, w) && Within(img, min, max)
    ensures Within(Rounds(img, w, r, n), min, max)
  {
    if n > 0 {
      RoundsWithin(img, w, r, n - 1, min, max);
      RoundWithin(Rounds(img, w, r, n - 1), w, r, min, max);
    }
  }

  /** A blur never leaves the range of its input; with min == max, it fixes a constant image. */
  lemma BlurWithin(img: Image, w: nat, radius: int, min: nat, max: nat)
    requires Rect(img, w) && Within(img, min, max)
    ensures Within(Blurred(img, w, radius), min, max)
    ensures min == max ==> Blurred(img, w, radius) == img
  {
    if radius > 0 { RoundsWithin(img, w, radius / 3 + 1, 3, min, max); }
    var out := Blurred(img, w, radius);
    if min == max {
      forall y | 0 <= y < |img| ensures out[y] == img[y] {
        forall x | 0 <= x < w ensures out[y][x] == img[y][x] {
          assert min <= out[y][x] <= max && min <= img[y][x] <= max;
        }
      }
    }
  }

  // ---------------------------------------------------------------------- mirrors

  ghost function Mirror<T>(line: seq<T>): (m: seq<T>)
    ensures |m| == |line|
  {
    seq(|line|, i requires 0 <= i < |line| => line[|line| - 1 - i])
  }

  /** Left-right. */
  ghost function FlipX(img: Image): (out: Image)
    ensures |out| == |img| && forall w: nat :: Rect(img, w) ==> Rect(out, w)
  {
    seq(|img|, y requires 0 <= y < |img| => Mirror(img[y]))
  }

  lemma {:induction false} MirrorSum(line: Line, lo: int, hi: int)
    requires |line| > 0
    ensures ClampSum(Mirror(line), lo, hi) == ClampSum(line, |line| - hi, |line| - lo)
    decreases hi - lo
  {
    if lo < hi {
      MirrorSum(line, lo, hi - 1);
      SumFront(line, |line| - hi, |line| - lo);
      var k := Clamp(hi - 1, |line|);
      assert Mirror(line)[k] == line[|line| - 1 - k];
      assert Clamp(|line| - hi, |line|) == |line| - 1 - k;
    }
  }

  lemma MirrorMean(line: Line, c: int, r: nat)
    requires |line| > 0
    ensures Mean(Mirror(line), c, r) == Mean(line, |line| - 1 - c, r)
  {
    MirrorSum(line, c - r, c + r + 1);
  }

  lemma RoundFlipX(img: Image, w: nat, r: nat)
    requires Rect(img, w)
    ensures VPass(HPass(FlipX(img), r), w, r) == FlipX(VPass(HPass(img, r), w, r))
  {
    var f, mid := HPass(FlipX(img), r), HPass(img, r);
    assert Rect(FlipX(img), w) && Rect(f, w) && Rect(mid, w);
    forall y, x | 0 <= y < |img| && 0 <= x < w ensures f[y][x] == mid[y][w - 1 - x] {
      MirrorMean(img[y], x, r);
    }
    var a, b := VPass(f, w, r), FlipX(VPass(mid, w, r));
    forall y, x | 0 <= y < |img| && 0 <= x < w ensures a[y][x] == b[y][x] {
      assert Column(f, w, x) == Column(mid, w, w - 1 - x);
    }
    SameImage(a, b, w);
  }

  lemma RoundFlipY(img: Image, w: nat, r: nat)
    requires Rect(img, w)
    ensures Rect(Mirror(img), w)
    ensures VPass(HPass(Mirror(img), r), w, r) == Mirror(VPass(HPass(img, r), w, r))
  {
    var f, mid := HPass(Mirror(img), r), HPass(img, r);
    assert Rect(Mirror(img), w) && Rect(f, w) && Rect(mid, w);
    assert f == Mirror(mid);
    var a, b := VPass(f, w, r), Mirror(VPass(mid, w, r));
    forall y, x | 0 <= y < |img| && 0 <= x < w ensures a[y][x] == b[y][x] {
      assert Column(f, w, x) == Mirror(Column(mid, w, x));
      MirrorMean(Column(mid, w, x), y, r);
    }
    SameImage(a, b, w);
  }

  lemma SameImage(a: Image, b: Image, w: nat)
    requires |a| == |b| && Rect(a, w) && Rect(b, w)
    requires forall y, x :: 0 <= y < |a| && 0 <= x < w ==> a[y][x] == b[y][x]
    ensures a == b
  {
    forall y | 0 <= y < |a| ensures a[y] == b[y] {
    }
  }

  lemma {:induction false} RoundsFlip(img: Image, w: nat, r: nat, n: nat)
    requires Rect(img, w)
    ensures Rect(Mirror(img), w)
    ensures Rounds(FlipX(img), w, r, n) == FlipX(Rounds(img, w, r, n))
    ensures Rounds(Mirror(img), w, r, n) == Mirror(Rounds(img, w, r, n))
  {
    if n > 0 {
      RoundsFlip(img, w, r, n - 1);
      RoundFlipX(Rounds(img, w, r, n - 1), w, r);
      RoundFlipY(Rounds(img, w, r, n - 1), w, r);
    }
  }

  /** Blurring commutes with both mirrors, although it truncates and clamps at four edges. */
  lemma BlurCommutesWithMirrors(img: Image, w: nat, radius: int)
    requires Rect(img, w)
    ensures Blurred(FlipX(img), w, radius) == FlipX(Blurred(img, w, radius))
    ensures Rect(Mirror(img), w) && Blurred(Mirror(img), w, radius) == Mirror(Blurred(img, w, radius))
  {
    if radius > 0 { RoundsFlip(img, w, radius / 3 + 1, 3); }
  }

  // --------------------------------------------------------------------- locality

  /** Two images agree on every pixel at most d away from (x, y) in each axis. */
  ghost predicate AgreeNear(a: Image, b: Image, w: nat, x: int, y: int, d: int)
    requires |a| == |b| && Rect(a, w) && Rect(b, w)
  {
    forall j, i :: 0 <= j < |a| && 0 <= i < w && y - d <= j <= y + d && x - d <= i <= x + d ==> a[j][i] == b[j][i]
  }

  lemma {:induction false} SumLocal(a: Line, b: Line, lo: int, hi: int)
    requires |a| == |b| && |a| > 0 && 0 < hi && lo < |a|
    requires forall i :: 0 <= i < |a| && lo <= i < hi ==> a[i] == b[i]
    ensures ClampSum(a, lo, hi) == ClampSum(b, lo, hi)
    decreases hi - lo
  {
    if lo < hi {
      SumSame(a, b, lo, lo, hi, hi);
    }
  }

  lemma {:induction false} SumSame(a: Line, b: Line, from: int, lo: int, hi: int, to: int)
    requires |a| == |b| && |a| > 0 && 0 < to && from < |a| && from <= lo <= hi <= to
    requires forall i :: 0 <= i < |a| && from <= i < to ==> a[i] == b[i]
    ensures ClampSum(a, lo, hi) == ClampSum(b, lo, hi)
    decreases hi - lo
  {
    if lo < hi { SumSame(a, b, from, lo, hi - 1, to); }
  }

  lemma RoundLocal(a: Image, b: Image, w: nat, r: nat, x: nat, y: nat, d: nat)
    requires |a| == |b| && Rect(a, w) && Rect(b, w) && x < w && y < |a|
    requires AgreeNear(a, b, w, x, y, d + r)
    ensures AgreeNear(VPass(HPass(a, r), w, r), VPass(HPass(b, r), w, r), w, x, y, d)
  {
    var p, q := HPass(a, r), HPass(b, r);
    assert Rect(p, w) && Rect(q, w);
    forall j, i | 0 <= j < |a| && 0 <= i < w && y - d - r <= j <= y + d + r && x - d <= i <= x + d
      ensures p[j][i] == q[j][i]
    {
      SumLocal(a[j], b[j], i - r, i + r + 1);
    }
    forall j, i | 0 <= j < |a| && 0 <= i < w && y - d <= j <= y + d && x - d <= i <= x + d
      ensures VPass(p, w, r)[j][i] == VPass(q, w, r)[j][i]
    {
      SumLocal(Column(p, w, i), Column(q, w, i), j - r, j + r + 1);
    }
  }

  lemma {:induction false} RoundsLocal(a: Image, b: Image, w: nat, r: nat, n: nat, x: nat, y: nat, d: nat)
    requires |a| == |b| && Rect(a, w) && Rect(b, w) && x < w && y < |a|
    requires AgreeNear(a, b, w, x, y, d + n * r)
    ensures AgreeNear(Rounds(a, w, r, n), Rounds(b, w, r, n), w, x, y, d)
    decreases n
  {
    if n > 0 {
      assert d + n * r == d + r + (n - 1) * r;
      RoundsLocal(a, b, w, r, n - 1, x, y, d + r);
      RoundLocal(Rounds(a, w, r, n - 1), Rounds(b, w, r, n - 1), w, r, x, y, d);
    } else {
      assert n * r == 0;
    }
  }

  /** A pixel of the blur depends only on pixels at most 3 * (radius / 3 + 1) away. */
  lemma BlurLocal(a: Image, b: Image, w: nat, radius: int, x: nat, y: nat)
    requires |a| == |b| && Rect(a, w) && Rect(b, w) && x < w && y < |a| && radius > 0
    requires AgreeNear(a, b, w, x, y, 3 * (radius / 3 + 1))
    ensures Blurred(a, w, radius)[y][x] == Blurred(b, w, radius)[y][x]
  {
    RoundsLocal(a, b, w, radius / 3 + 1, 3, x, y, 0);
  }

  // ------------------------------------------------------------------ the C integer

  ghost function WindowSum(line: Line, c: int, r: nat): int
    requires |line| > 0
  {
    ClampSum(line, c - r, c + r + 1)
  }

  /** The running sum fits C's int for every image exactly up to this window. */
  lemma SumFitsInt(r: nat)
    ensures (forall line: Line, c: int | |line| > 0 :: 0 <= WindowSum(line, c, r) < 0x8000_0000)
       <==> 255 * (2 * r + 1) < 0x8000_0000
  {
    if 255 * (2 * r + 1) < 0x8000_0000 {
      forall line: Line, c: int | |line| > 0 ensures 0 <= WindowSum(line, c, r) < 0x8000_0000 {
        SumBounds(line, c - r, c + r + 1, 0, 255);
      }
    } else {
      var white: Line := [255];
      SumBounds(white, 0 - r, 0 + r + 1, 255, 255);
      assert WindowSum(white, 0, r) >= 0x8000_0000;
    }
  }
}
