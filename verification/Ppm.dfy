/** Pictures as PPM files in desktop/de/abyssgrab/src/main.rs: writing one, reading one, and where two differ. */
module Ppm {
  import opened Wrappers

  type Byte = b: int | 0 <= b < 256

  type Word = p: int | 0 <= p < 0x1_0000_0000

  const USIZE: nat := 0x1_0000_0000_0000_0000

  datatype Picture = Picture(w: nat, h: nat, data: seq<Byte>)

  /** u8::is_ascii_whitespace: space, tab, line feed, form feed, carriage return. */
  predicate White(b: Byte) { b == 32 || b == 9 || b == 10 || b == 12 || b == 13 }

  predicate Digit(b: Byte) { 48 <= b <= 57 }

  // ------------------------------------------------------------------------------- writing

  function Decimal(n: nat): (r: seq<Byte>)
    ensures r != [] && forall k :: 0 <= k < |r| ==> Digit(r[k])
  {
    if n < 10 then [48 + n] else Decimal(n / 10) + [48 + n % 10]
  }

  /** Alpha dropped: red, green, blue. */
  function Rgb(p: Word): seq<Byte> { [p / 0x10000 % 256, p / 0x100 % 256, p % 256] }

  function Raster(words: seq<Word>): (r: seq<Byte>)
    ensures |r| == 3 * |words|
  {
    if words == [] then [] else Raster(words[..|words| - 1]) + Rgb(words[|words| - 1])
  }

  const P6: seq<Byte> := [80, 54]
  const MaxVal: seq<Byte> := [50, 53, 53]

  /** "P6", a line feed, the size, a line feed, "255", a line feed, and the pixels. */
  function Written(w: nat, h: nat, words: seq<Word>): seq<Byte> {
    P6 + [10] + Decimal(w) + [32] + Decimal(h) + [10] + MaxVal + [10] + Raster(words)
  }

  method WritePpm(w: nat, h: nat, words: seq<Word>) returns (out: seq<Byte>)
    ensures out == Written(w, h, words)
  {
    out := P6 + [10] + Decimal(w) + [32] + Decimal(h) + [10] + MaxVal + [10];
    ghost var header := out;
    for k := 0 to |words|
      invariant out == header + Raster(words[..k])
    {
      assert words[..k + 1][..k] == words[..k];
      out := out + Rgb(words[k]);
    }
    assert words[..|words|] == words;
  }

  // ------------------------------------------------------------------------------- reading

  function Value(s: seq<Byte>): nat
    requires forall k :: 0 <= k < |s| ==> Digit(s[k])
  {
    if s == [] then 0
    else
      assert Digit(s[|s| - 1]);
      10 * Value(s[..|s| - 1]) + (s[|s| - 1] as int - 48)
  }

  /** str::parse::<usize>: one plus sign allowed, then at least one digit and nothing else, below 2^64. */
  function Parse(s: seq<Byte>): Option<nat> {
    var digits := if s != [] && s[0] == 43 then s[1..] else s;
    if digits == [] || exists k :: 0 <= k < |digits| && !Digit(digits[k]) then None
    else if Value(digits) < USIZE then Some(Value(digits)) else None
  }

  /** The end of the stretch from i of bytes that are white, or of those that are not. */
  function End(s: seq<Byte>, i: nat, white: bool): (j: nat)
    requires i <= |s|
    ensures i <= j <= |s|
    ensures forall k :: i <= k < j ==> White(s[k]) == white
    ensures j < |s| ==> White(s[j]) != white
    decreases |s| - i
  {
    if i < |s| && White(s[i]) == white then End(s, i + 1, white) else i
  }

  lemma {:induction false} EndIs(s: seq<Byte>, i: nat, j: nat, white: bool)
    requires i <= j <= |s| && (forall k :: i <= k < j ==> White(s[k]) == white) && (j < |s| ==> White(s[j]) != white)
    ensures End(s, i, white) == j
    decreases j - i
  {
    if i < j { EndIs(s, i + 1, j, white); }
  }

  method Skip(s: seq<Byte>, i: nat, white: bool) returns (j: nat)
    requires i <= |s|
    ensures j == End(s, i, white)
  {
    j := i;
    while j < |s| && White(s[j]) == white
      invariant i <= j <= |s| && End(s, i, white) == End(s, j, white)
    {
      j := j + 1;
    }
  }

  /** Where the fields at the beginning of a file are cut out. */
  datatype Cuts = Nothing | Then(front: Cuts, start: nat, end: nat)

  function Last(t: Cuts): nat { if t == Nothing then 0 else t.end }

  function Count(t: Cuts): nat { if t == Nothing then 0 else Count(t.front) + 1 }

  /** Fields are the stretches between white space; only the first may have none before it. */
  ghost predicate Proper(s: seq<Byte>, t: Cuts) {
    t == Nothing ||
    (&& Proper(s, t.front) && Last(t.front) <= t.start < t.end <= |s|
     && (t.front.Then? ==> Last(t.front) < t.start)
     && (forall k :: Last(t.front) <= k < t.start ==> White(s[k]))
     && (forall k :: t.start <= k < t.end ==> !White(s[k])))
  }

  function Names(s: seq<Byte>, t: Cuts): (r: seq<seq<Byte>>)
    ensures |r| == Count(t)
  {
    if t == Nothing then [] else Names(s, t.front) + [if t.start <= t.end <= |s| then s[t.start..t.end] else []]
  }

  /** The format as the reader takes it: four fields, the first "P6", the next two the size, then one
      white byte, and the raster, whatever it begins with. */
  ghost predicate IsPpm(bytes: seq<Byte>, p: Picture, t: Cuts) {
    && Proper(bytes, t) && Count(t) == 4 && Last(t) < |bytes| && White(bytes[Last(t)])
    && p.data == bytes[Last(t) + 1..] && Names(bytes, t)[0] == P6
    && Parse(Names(bytes, t)[1]) == Some(p.w) && Parse(Names(bytes, t)[2]) == Some(p.h)
  }

  /** The first n fields. */
  function Fields(s: seq<Byte>, n: nat): (r: Option<Cuts>)
    ensures r.Some? ==> Count(r.value) == n && Last(r.value) <= |s|
  {
    if n == 0 then Some(Nothing)
    else
      var before := Fields(s, n - 1);
      if before == None then None
      else
        var start := End(s, Last(before.value), true);
        var end := End(s, start, false);
        if start == end then None else Some(Then(before.value, start, end))
  }

  function Loaded(bytes: seq<Byte>): Option<Picture> {
    var r := Fields(bytes, 4);
    if r == None then None
    else
      var t := r.value;
      var w, h := Parse(Names(bytes, t)[1]), Parse(Names(bytes, t)[2]);
      if w == None || h == None || Names(bytes, t)[0] != P6 || Last(t) + 1 > |bytes| then None
      else Some(Picture(w.value, h.value, bytes[Last(t) + 1..]))
  }

  lemma {:induction false} NoneLater(s: seq<Byte>, n: nat, m: nat)
    requires n <= m && Fields(s, n) == None
    ensures Fields(s, m) == None
    decreases m - n
  {
    if n < m { NoneLater(s, n, m - 1); }
  }

  lemma OneMoreField(s: seq<Byte>, n: nat, t: Cuts)
    requires Fields(s, n) == Some(t)
    ensures var start := End(s, Last(t), true); var end := End(s, start, false);
      Fields(s, n + 1) == if start == end then None else Some(Then(t, start, end))
  {
  }

  /** The loop over the fields. */
  method ReadFields(bytes: seq<Byte>) returns (r: Option<(seq<seq<Byte>>, nat)>)
    ensures r == None <==> Fields(bytes, 4) == None
    ensures r.Some? && Fields(bytes, 4).Some? ==>
      r.value.0 == Names(bytes, Fields(bytes, 4).value) && r.value.1 == Last(Fields(bytes, 4).value)
  {
    var fields := [];
    var i := 0;
    ghost var t := Nothing;
    while |fields| < 4
      invariant |fields| <= 4 && Fields(bytes, |fields|) == Some(t)
      invariant i == Last(t) <= |bytes| && fields == Names(bytes, t)
      decreases 4 - |fields|
    {
      OneMoreField(bytes, |fields|, t);
      var start := Skip(bytes, i, true);
      i := Skip(bytes, start, false);
      if start == i {
        NoneLater(bytes, |fields| + 1, 4);
        return None;
      }
      t := Then(t, start, i);
      fields := fields + [bytes[start..i]];
    }
    return Some((fields, i));
  }

  /** load_ppm; None is "not a PPM". */
  method LoadPpm(bytes: seq<Byte>) returns (r: Option<Picture>)
    ensures r == Loaded(bytes)
  {
    var read := ReadFields(bytes);
    if read == None { return None; }
    var (fields, i) := read.value;
    i := i + 1;
    var w, h := Parse(fields[1]), Parse(fields[2]);
    if w == None || h == None { return None; }
    if fields[0] != P6 || i > |bytes| { return None; }
    return Some(Picture(w.value, h.value, bytes[i..]));
  }

  /** The reader's cuts are proper, and the last ends at white space or at the end. */
  lemma {:induction false} FieldsProper(s: seq<Byte>, n: nat)
    requires Fields(s, n).Some?
    ensures var t := Fields(s, n).value; Proper(s, t) && (n > 0 && Last(t) < |s| ==> White(s[Last(t)]))
  {
    if n > 0 { FieldsProper(s, n - 1); }
  }

  /** The reader finds every proper way of cutting the beginning of s. */
  lemma {:induction false} FieldsOf(s: seq<Byte>, t: Cuts)
    requires Proper(s, t) && (t.Then? && t.end < |s| ==> White(s[t.end]))
    ensures Fields(s, Count(t)) == Some(t)
  {
    if t.Then? {
      FieldsOf(s, t.front);
      EndIs(s, Last(t.front), t.start, true);
      EndIs(s, t.start, t.end, false);
      OneMoreField(s, Count(t.front), t.front);
    }
  }

  /** The reader accepts exactly the files of the format, and returns what they say. */
  lemma LoadsExactly(bytes: seq<Byte>, p: Picture)
    ensures Loaded(bytes) == Some(p) <==> exists t :: IsPpm(bytes, p, t)
  {
    if Loaded(bytes) == Some(p) {
      FieldsProper(bytes, 4);
      assert IsPpm(bytes, p, Fields(bytes, 4).value);
    }
    if t :| IsPpm(bytes, p, t) {
      FieldsOf(bytes, t);
    }
  }

  // ---------------------------------------------------------------------------- round trip

  lemma {:induction false} ValueOfDecimal(n: nat)
    ensures Value(Decimal(n)) == n
  {
    if n >= 10 {
      ValueOfDecimal(n / 10);
      assert Decimal(n)[..|Decimal(n)| - 1] == Decimal(n / 10);
    } else {
      assert Value([48 + n]) == 10 * Value([]) + n;
    }
  }

  lemma ParseOfDecimal(n: nat)
    ensures Parse(Decimal(n)) == if n < USIZE then Some(n) else None
  {
    ValueOfDecimal(n);
    assert Digit(Decimal(n)[0]);
  }

  lemma HeadPieces(dw: seq<Byte>, dh: seq<Byte>, a: nat, b: nat)
    requires a == 3 + |dw| && b == a + 1 + |dh|
    ensures var s := P6 + [10] + dw + [32] + dh + [10];
      && |s| == b + 1 && s[0..2] == P6 && s[3..a] == dw && s[a + 1..b] == dh
      && s[2] == 10 && s[a] == 32 && s[b] == 10
  {
  }

  /** What is written, piece by piece. */
  lemma Pieces(w: nat, h: nat, words: seq<Word>, a: nat, b: nat)
    requires a == 3 + |Decimal(w)| && b == a + 1 + |Decimal(h)|
    ensures var s := Written(w, h, words);
      && |s| >= b + 5 && s[0..2] == P6 && s[3..a] == Decimal(w) && s[a + 1..b] == Decimal(h) && s[b + 5..] == Raster(words)
      && s[2] == 10 && s[a] == 32 && s[b] == 10 && s[b + 1..b + 5] == [50, 53, 53, 10]
  {
    var s := Written(w, h, words);
    var head := P6 + [10] + Decimal(w) + [32] + Decimal(h) + [10];
    HeadPieces(Decimal(w), Decimal(h), a, b);
    assert s[..b + 1] == head;
    assert s[0..2] == head[0..2] && s[3..a] == head[3..a] && s[a + 1..b] == head[a + 1..b];
    assert s[2] == head[2] && s[a] == head[a] && s[b] == head[b];
  }

  lemma Dark(s: seq<Byte>, n: nat, i: nat)
    requires i + |Decimal(n)| <= |s| && s[i..i + |Decimal(n)|] == Decimal(n)
    ensures forall k :: i <= k < i + |Decimal(n)| ==> !White(s[k])
  {
    assert forall k :: i <= k < i + |Decimal(n)| ==> s[k] == Decimal(n)[k - i];
  }

  lemma OneMoreCut(s: seq<Byte>, t: Cuts, start: nat, end: nat)
    requires Proper(s, t) && Last(t) <= start < end <= |s| && (t.Then? ==> Last(t) < start)
    requires (forall k :: Last(t) <= k < start ==> White(s[k])) && (forall k :: start <= k < end ==> !White(s[k]))
    ensures var n := Then(t, start, end); Proper(s, n) && Count(n) == Count(t) + 1 && Names(s, n) == Names(s, t) + [s[start..end]]
  {
  }

  /** Four cuts whose pieces are known. */
  lemma FourCuts(s: seq<Byte>, a: nat, b: nat) returns (t: Cuts)
    requires 3 < a && a + 1 < b && b + 5 <= |s|
    requires s[2] == 10 && s[a] == 32 && s[b] == 10
    requires forall k :: 0 <= k < b + 4 && k != 2 && k != a && k != b ==> !White(s[k])
    ensures Proper(s, t) && Last(t) == b + 4 && Count(t) == 4
    ensures Names(s, t) == [s[0..2], s[3..a], s[a + 1..b], s[b + 1..b + 4]]
  {
    OneMoreCut(s, Nothing, 0, 2);
    t := Then(Nothing, 0, 2);
    OneMoreCut(s, t, 3, a);
    t := Then(t, 3, a);
    OneMoreCut(s, t, a + 1, b);
    t := Then(t, a + 1, b);
    OneMoreCut(s, t, b + 1, b + 4);
    t := Then(t, b + 1, b + 4);
  }

  lemma CutsOfWritten(w: nat, h: nat, words: seq<Word>) returns (t: Cuts)
    ensures Proper(Written(w, h, words), t) && Count(t) == 4
    ensures Names(Written(w, h, words), t) == [P6, Decimal(w), Decimal(h), MaxVal]
    ensures var s := Written(w, h, words);
      Last(t) < |s| && White(s[Last(t)]) && s[Last(t) + 1..] == Raster(words)
  {
    var s := Written(w, h, words);
    var a := 3 + |Decimal(w)|;
    var b := a + 1 + |Decimal(h)|;
    Pieces(w, h, words, a, b);
    Dark(s, w, 3);
    Dark(s, h, a + 1);
    var tail := s[b + 1..b + 5];
    assert s[b + 1] == tail[0] && s[b + 2] == tail[1] && s[b + 3] == tail[2] && s[b + 4] == tail[3];
    var head := s[0..2];
    assert s[0] == head[0] && s[1] == head[1];
    t := FourCuts(s, a, b);
    assert s[b + 1..b + 4] == MaxVal;
  }

  /** What is written is read back: the size and every pixel, whatever bytes the raster begins with;
      a size of 2^64 or more is refused. */
  lemma RoundTrip(w: nat, h: nat, words: seq<Word>)
    ensures Loaded(Written(w, h, words)) ==
      if w < USIZE && h < USIZE then Some(Picture(w, h, Raster(words))) else None
  {
    var t := CutsOfWritten(w, h, words);
    ParseOfDecimal(w);
    ParseOfDecimal(h);
    FieldsOf(Written(w, h, words), t);
  }
}
