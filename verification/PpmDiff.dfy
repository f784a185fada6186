/** Where two pictures differ, in desktop/de/abyssgrab/src/main.rs: how many pixels, and the box around them. */
module PpmDiff {
  import opened Wrappers
  import opened Ppm

  /** Two files are not of one size; or they are the same; or the number of pixels that differ and the
      box around them; or a division by a width of zero. */
  datatype Difference = NotOneSize | Same | Within(n: nat, x: int, y: int, w: int, h: int) | DividesByZero

  function Pixels(a: seq<Byte>): nat { |a| / 3 }

  predicate Differs(a: seq<Byte>, b: seq<Byte>, p: nat)
    requires |a| == |b|
  {
    3 * p + 3 <= |a| && a[3 * p..3 * p + 3] != b[3 * p..3 * p + 3]
  }

  /** The pixels that differ; a last one or two bytes are no pixel. */
  ghost function Differing(a: seq<Byte>, b: seq<Byte>): set<nat>
    requires |a| == |b|
  {
    set p: nat | p < Pixels(a) && Differs(a, b, p)
  }

  datatype Spot = Spot(x: int, y: int)

  /** Pixel p's column and row, rows being w long. */
  function Place(p: nat, w: nat): (r: Spot)
    requires w > 0
    ensures 0 <= r.x <= p && 0 <= r.y <= p
  {
    if p < w then Spot(p, 0) else Spot(Place(p - w, w).x, Place(p - w, w).y + 1)
  }

  lemma {:induction false} PlaceIsDivMod(p: nat, w: nat)
    requires w > 0
    ensures Place(p, w) == Spot(p % w, p / w)
  {
    if p < w {
      DivModIs(p, w, 0, p);
    } else {
      PlaceIsDivMod(p - w, w);
      var q, r := (p - w) / w, (p - w) % w;
      assert p == w * (q + 1) + r;
      DivModIs(p, w, q + 1, r);
    }
  }

  lemma DivModIs(p: nat, w: nat, q: nat, r: nat)
    requires p == w * q + r && r < w
    ensures p / w == q && p % w == r
  {
    var e := p / w - q;
    assert w * e == r - p % w;
    assert (e >= 1 ==> w * e >= w) && (e <= -1 ==> w * e <= 0 - w);
  }

  /** For each pixel, its place if it differs. */
  function Marks(a: seq<Byte>, b: seq<Byte>, w: nat): (r: seq<Option<Spot>>)
    requires |a| == |b| && w > 0
    ensures |r| == Pixels(a)
    ensures forall p: nat :: p < |r| ==> r[p] == if Differs(a, b, p) then Some(Place(p, w)) else None
  {
    seq(Pixels(a), p requires 0 <= p < Pixels(a) => if Differs(a, b, p) then Some(Place(p, w)) else None)
  }

  ghost function Marked(marks: seq<Option<Spot>>, n: nat): set<nat>
    requires n <= |marks|
  {
    set p: nat | p < n && marks[p].Some?
  }

  /** The smallest box around the first n marks: all are in it, and each of its sides touches one. */
  ghost predicate IsBox(marks: seq<Option<Spot>>, n: nat, x0: int, y0: int, x1: int, y1: int)
    requires n <= |marks|
  {
    && (forall p: nat :: p < n && marks[p].Some? ==> x0 <= marks[p].value.x <= x1 && y0 <= marks[p].value.y <= y1)
    && (exists p: nat :: p < n && marks[p].Some? && marks[p].value.x == x0)
    && (exists p: nat :: p < n && marks[p].Some? && marks[p].value.x == x1)
    && (exists p: nat :: p < n && marks[p].Some? && marks[p].value.y == y0)
    && (exists p: nat :: p < n && marks[p].Some? && marks[p].value.y == y1)
  }

  function Min(a: int, b: int): int { if a <= b then a else b }

  function Max(a: int, b: int): int { if a <= b then b else a }

  /** What the loop has counted and boxed in. */
  datatype Tally = Tally(n: nat, x0: int, y0: int, x1: int, y1: int)

  const Nothing := Tally(0, USIZE - 1, USIZE - 1, 0, 0)

  function Including(t: Tally, q: Spot): Tally {
    Tally(t.n + 1, Min(t.x0, q.x), Min(t.y0, q.y), Max(t.x1, q.x), Max(t.y1, q.y))
  }

  function Tallied(marks: seq<Option<Spot>>, n: nat): Tally
    requires n <= |marks|
  {
    if n == 0 then Nothing
    else if marks[n - 1].Some? then Including(Tallied(marks, n - 1), marks[n - 1].value)
    else Tallied(marks, n - 1)
  }

  lemma {:induction false} CountIs(marks: seq<Option<Spot>>, n: nat)
    requires n <= |marks|
    ensures Tallied(marks, n).n == |Marked(marks, n)|
  {
    if n == 0 {
      assert Marked(marks, 0) == {};
    } else {
      CountIs(marks, n - 1);
      assert Marked(marks, n) == Marked(marks, n - 1) + if marks[n - 1].Some? then {n - 1} else {};
    }
  }

  /** The tally is the smallest box around the marks; untouched when there are none. */
  lemma {:induction false} BoxIs(marks: seq<Option<Spot>>, n: nat)
    requires n <= |marks|
    requires forall p: nat :: p < n && marks[p].Some? ==> 0 <= marks[p].value.x < USIZE && 0 <= marks[p].value.y < USIZE
    ensures var t := Tallied(marks, n);
      if t.n == 0 then t == Nothing && forall p: nat :: p < n ==> marks[p] == None
      else IsBox(marks, n, t.x0, t.y0, t.x1, t.y1)
  {
    if n > 0 {
      BoxIs(marks, n - 1);
      if marks[n - 1].Some? && Tallied(marks, n - 1).n > 0 {
        BoxGrows(marks, n, Tallied(marks, n - 1));
      }
    }
  }

  lemma BoxGrows(marks: seq<Option<Spot>>, n: nat, t: Tally)
    requires 0 < n <= |marks| && IsBox(marks, n - 1, t.x0, t.y0, t.x1, t.y1) && marks[n - 1].Some?
    ensures var q := marks[n - 1].value; IsBox(marks, n, Min(t.x0, q.x), Min(t.y0, q.y), Max(t.x1, q.x), Max(t.y1, q.y))
  {
  }

  /** The loop over the pixels; None when it divides by zero. */
  method CountPixels(a: seq<Byte>, b: seq<Byte>, w: nat) returns (r: Option<Tally>)
    requires |a| == |b|
    ensures w > 0 ==> r == Some(Tallied(Marks(a, b, w), Pixels(a)))
    ensures w == 0 ==> r == if Differing(a, b) == {} then Some(Nothing) else None
  {
    var t := Nothing;
    for p := 0 to Pixels(a)
      invariant w > 0 ==> t == Tallied(Marks(a, b, w), p)
      invariant w == 0 ==> t == Nothing && forall q: nat :: q < p ==> !Differs(a, b, q)
    {
      if Differs(a, b, p) {
        if w == 0 {
          assert p in Differing(a, b);
          return None;
        }
        PlaceIsDivMod(p, w);
        var x, y := p % w, p / w;
        t := Tally(t.n + 1, Min(t.x0, x), Min(t.y0, y), Max(t.x1, x), Max(t.y1, y));
      }
    }
    return Some(t);
  }

  /** What diff says of two files of one size. */
  ghost predicate Tells(r: Difference, a: seq<Byte>, b: seq<Byte>, w: nat)
    requires |a| == |b|
  {
    && (r == Same <==> Differing(a, b) == {})
    && (r == DividesByZero <==> w == 0 && Differing(a, b) != {})
    && (r.Within? ==> w > 0 && r.n == |Differing(a, b)|)
    && (r.Within? && w > 0 ==> IsBox(Marks(a, b, w), Pixels(a), r.x, r.y, r.x + r.w - 1, r.y + r.h - 1))
    && r != NotOneSize
  }

  /** What is printed for a tally. */
  function Said(t: Tally): Difference {
    if t.n == 0 then Same else Within(t.n, t.x0, t.y0, t.x1 - t.x0 + 1, t.y1 - t.y0 + 1)
  }

  lemma SaidTells(a: seq<Byte>, b: seq<Byte>, w: nat)
    requires |a| == |b| < USIZE && w > 0
    ensures Tells(Said(Tallied(Marks(a, b, w), Pixels(a))), a, b, w)
  {
    var marks := Marks(a, b, w);
    CountIs(marks, Pixels(a));
    BoxIs(marks, Pixels(a));
    assert Marked(marks, Pixels(a)) == Differing(a, b);
  }

  /** diff: how many pixels differ, and the smallest box around them; a division by zero when files
      that say their width is 0 differ. */
  method Diff(x: Picture, y: Picture) returns (r: Difference)
    requires |x.data| < USIZE
    ensures r == NotOneSize <==> x.w != y.w || x.h != y.h || |x.data| != |y.data|
    ensures r != NotOneSize ==> Tells(r, x.data, y.data, x.w)
  {
    if x.w != y.w || x.h != y.h || |x.data| != |y.data| { return NotOneSize; }
    var t := CountPixels(x.data, y.data, x.w);
    if x.w > 0 { SaidTells(x.data, y.data, x.w); }
    if t == None { return DividesByZero; }
    return Said(t.value);
  }

  lemma {:induction false} RasterAt(words: seq<Word>, p: nat)
    requires p < |words|
    ensures Raster(words)[3 * p..3 * p + 3] == Rgb(words[p])
    decreases |words|
  {
    var n := |words| - 1;
    var front := Raster(words[..n]);
    if p < n {
      RasterAt(words[..n], p);
      assert Raster(words)[3 * p..3 * p + 3] == front[3 * p..3 * p + 3];
    }
  }

  function Colour(rgb: seq<Byte>): nat
    requires |rgb| == 3
  {
    0x10000 * rgb[0] as int + 0x100 * rgb[1] as int + rgb[2] as int
  }

  lemma ColourOfWord(p: Word)
    ensures Colour(Rgb(p)) == p % 0x100_0000
  {
    var low := p / 0x100;
    var mid := low / 0x100;
    var top := mid / 0x100;
    assert mid == p / 0x10000;
    assert top == p / 0x100_0000;
  }

  lemma ColourIsUnique(a: seq<Byte>, b: seq<Byte>)
    requires |a| == |b| == 3 && Colour(a) == Colour(b)
    ensures a == b
  {
    assert a[0] == b[0] && a[1] == b[1] && a[2] == b[2];
  }

  lemma SameColour(p: Word, q: Word)
    ensures Rgb(p) == Rgb(q) <==> p % 0x100_0000 == q % 0x100_0000
  {
    ColourOfWord(p);
    ColourOfWord(q);
    if Colour(Rgb(p)) == Colour(Rgb(q)) { ColourIsUnique(Rgb(p), Rgb(q)); }
  }

  lemma RasterDiffers(v: seq<Word>, w: seq<Word>, p: nat)
    requires |v| == |w|
    ensures Differs(Raster(v), Raster(w), p) <==> p < |v| && Rgb(v[p]) != Rgb(w[p])
  {
    if p < |v| {
      RasterAt(v, p);
      RasterAt(w, p);
    }
  }

  /** Two pictures of one size differ, once written, in exactly the pixels whose colours differ. */
  lemma WrittenDifference(v: seq<Word>, w: seq<Word>, p: nat)
    requires |v| == |w|
    ensures p in Differing(Raster(v), Raster(w)) <==> p < |v| && v[p] % 0x100_0000 != w[p] % 0x100_0000
  {
    RasterDiffers(v, w, p);
    if p < |v| { SameColour(v[p], w[p]); }
  }
}
