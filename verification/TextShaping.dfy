/** Text shaping of desktop/de/ctext/ctext.c: which face draws which code point, how a string is split
    into runs of one face, and the bounded glyph buffer with its retrying caller in abyss-sys. FreeType
    and HarfBuzz are functions: whether a face covers a code point, and the glyphs of one run. */
module TextShaping {
  import opened Wrappers
  import opened Utf8

  const MAX_FACES: nat := 48
  const NSTYLES: nat := 4
  const NROLES: nat := 4
  const REGULAR: nat := 0

  // ----------------------------------------------------------------------- the faces

  /** ctext.c's global tables: the files that are open, each style's priority list, each role's lists
      and its own regular face (-1 while the role is the default chain). */
  datatype Fonts = Fonts(files: seq<(string, int)>, styles: seq<seq<nat>>, roles: seq<seq<seq<nat>>>, primary: seq<int>)

  ghost predicate ListOk(faces: seq<nat>, n: nat) {
    |faces| <= MAX_FACES && forall k :: 0 <= k < |faces| ==> faces[k] < n
  }

  ghost predicate FontsOk(f: Fonts) {
    && |f.files| <= MAX_FACES
    && (forall i, j :: 0 <= i < j < |f.files| ==> f.files[i] != f.files[j])
    && |f.styles| == NSTYLES && |f.roles| == NROLES && |f.primary| == NROLES
    && (forall s :: 0 <= s < NSTYLES ==> ListOk(f.styles[s], |f.files|))
    && (forall r :: 0 <= r < NROLES ==> |f.roles[r]| == NSTYLES && -1 <= f.primary[r] < |f.files|)
    && (forall r, s :: 0 <= r < NROLES && 0 <= s < NSTYLES ==> ListOk(f.roles[r][s], |f.files|))
  }

  type Coverage = (nat, nat) -> bool

  /** The style a face is looked up in: the one asked for, unless it is unknown or has no faces. */
  function StyleUsed(f: Fonts, style: int): (s: nat)
    requires |f.styles| == NSTYLES
    ensures s < NSTYLES
  {
    if style < 0 || style >= NSTYLES || f.styles[style] == [] then REGULAR else style
  }

  /** Every face that may draw a code point, best first. */
  function Chain(f: Fonts, style: int, role: int): seq<nat>
    requires |f.styles| == NSTYLES && |f.roles| == NROLES && |f.primary| == NROLES
    requires forall r :: 0 <= r < NROLES ==> |f.roles[r]| == NSTYLES
  {
    var s := StyleUsed(f, style);
    (if 0 <= role < NROLES && f.primary[role] >= 0 then f.roles[role][s] else []) + f.styles[s] + f.styles[REGULAR]
  }

  function First(covers: Coverage, faces: seq<nat>, cp: nat): (r: Option<nat>)
    ensures r.Some? <==> exists k :: 0 <= k < |faces| && covers(faces[k], cp)
    ensures r.Some? ==> r.value in faces && covers(r.value, cp)
  {
    if faces == [] then None
    else if covers(faces[0], cp) then Some(faces[0])
    else
      assert forall k :: 0 < k < |faces| ==> faces[k] == faces[1..][k - 1];
      First(covers, faces[1..], cp)
  }

  /** The face of a code point: the first of the chain that covers it, else the first regular face. */
  function Pick(f: Fonts, covers: Coverage, cp: nat, style: int, role: int): nat
    requires FontsOk(f)
  {
    match First(covers, Chain(f, style, role), cp)
    case Some(face) => face
    case None => if f.styles[REGULAR] != [] then f.styles[REGULAR][0] else 0
  }

  /** A face that draws is always an open one, and covers the code point whenever any of the chain does. */
  lemma PickIsOpen(f: Fonts, covers: Coverage, cp: nat, style: int, role: int)
    requires FontsOk(f) && f.styles[REGULAR] != []
    ensures Pick(f, covers, cp, style, role) < |f.files|
    ensures covers(Pick(f, covers, cp, style, role), cp) <==>
      (exists k :: 0 <= k < |Chain(f, style, role)| && covers(Chain(f, style, role)[k], cp))
  {
    var c := Chain(f, style, role);
    var s := StyleUsed(f, style);
    assert f.styles[REGULAR][0] == c[|c| - |f.styles[REGULAR]|];
    assert forall k :: 0 <= k < |c| ==> c[k] < |f.files|;
  }

  ghost predicate NoneCovers(covers: Coverage, faces: seq<nat>, cp: nat) {
    forall k :: 0 <= k < |faces| ==> !covers(faces[k], cp)
  }

  /** face is the first of these to cover the code point. */
  ghost predicate FirstToCover(covers: Coverage, faces: seq<nat>, cp: nat, face: nat) {
    exists k :: 0 <= k < |faces| && faces[k] == face && covers(face, cp) && NoneCovers(covers, faces[..k], cp)
  }

  lemma {:induction false} FirstIs(covers: Coverage, faces: seq<nat>, cp: nat)
    ensures match First(covers, faces, cp)
      case Some(face) => FirstToCover(covers, faces, cp, face)
      case None => NoneCovers(covers, faces, cp)
  {
    if faces != [] && !covers(faces[0], cp) {
      var rest := faces[1..];
      FirstIs(covers, rest, cp);
      if First(covers, rest, cp).Some? {
        var face := First(covers, rest, cp).value;
        var k :| 0 <= k < |rest| && rest[k] == face && NoneCovers(covers, rest[..k], cp);
        assert faces[..k + 1] == [faces[0]] + rest[..k] && faces[k + 1] == face;
      }
    }
  }

  /** A role's own faces come first, while it has a face of its own; then those of the style, which is the
      regular one when the style asked for is unknown or empty; then the regular ones; and if none of them
      covers the code point, the first regular face draws it. */
  lemma PickOrder(f: Fonts, covers: Coverage, cp: nat, style: int, role: int)
    requires FontsOk(f)
    ensures var used := if 0 <= style < 4 && f.styles[style] != [] then f.styles[style] else f.styles[0];
      var own := if 0 <= role < 4 && f.primary[role] >= 0
        then f.roles[role][if 0 <= style < 4 && f.styles[style] != [] then style else 0] else [];
      var face := Pick(f, covers, cp, style, role);
      if !NoneCovers(covers, own, cp) then FirstToCover(covers, own, cp, face)
      else if !NoneCovers(covers, used, cp) then FirstToCover(covers, used, cp, face)
      else if !NoneCovers(covers, f.styles[0], cp) then FirstToCover(covers, f.styles[0], cp, face)
      else face == if f.styles[0] != [] then f.styles[0][0] else 0
  {
    var s := StyleUsed(f, style);
    var own := if 0 <= role < NROLES && f.primary[role] >= 0 then f.roles[role][s] else [];
    FirstConcat(covers, own + f.styles[s], f.styles[REGULAR], cp);
    FirstConcat(covers, own, f.styles[s], cp);
    FirstIs(covers, own, cp);
    FirstIs(covers, f.styles[s], cp);
    FirstIs(covers, f.styles[REGULAR], cp);
  }

  lemma {:induction false} FirstConcat(covers: Coverage, a: seq<nat>, b: seq<nat>, cp: nat)
    ensures First(covers, a + b, cp) == if First(covers, a, cp).Some? then First(covers, a, cp) else First(covers, b, cp)
    decreases |a|
  {
    if a == [] {
      assert a + b == b;
    } else {
      assert (a + b)[1..] == a[1..] + b;
      FirstConcat(covers, a[1..], b, cp);
    }
  }

  // ------------------------------------------------------------------------- the runs

  /** A stretch of the text, in bytes, drawn by one face. */
  datatype Run = Run(face: nat, start: nat, end: nat)

  /** Which face draws the code point at text[i]. */
  type FaceAt = nat -> nat

  /** From a on, whole code points up to b, all of one face. */
  ghost predicate OneFace(text: Bytes, faceOf: FaceAt, face: nat, a: nat, b: nat)
    requires b <= |text|
    decreases |text| - a
  {
    a == b || (a < b && faceOf(Next(text, a).cp) == face && OneFace(text, faceOf, face, a + Next(text, a).adv, b))
  }

  /** The runs cover text[from..] end to end, each of one face, and two neighbours never share one. */
  ghost predicate Segmented(text: Bytes, faceOf: FaceAt, from: nat, runs: seq<Run>)
    decreases |runs|
  {
    if runs == [] then from == |text|
    else
      && runs[0].start == from < runs[0].end <= |text|
      && OneFace(text, faceOf, runs[0].face, from, runs[0].end)
      && (|runs| > 1 ==> runs[1].face != runs[0].face)
      && Segmented(text, faceOf, runs[0].end, runs[1..])
  }

  /** The splitting loop from i on, with the run that began at `start` still open. */
  function RunsFrom(text: Bytes, faceOf: FaceAt, start: nat, face: nat, i: nat): seq<Run>
    requires start <= i <= |text|
    decreases |text| - i
  {
    if i == |text| then [Run(face, start, i)]
    else
      var d := Next(text, i);
      var f := faceOf(d.cp);
      if f != face then [Run(face, start, i)] + RunsFrom(text, faceOf, i, f, i + d.adv)
      else RunsFrom(text, faceOf, start, face, i + d.adv)
  }

  function Runs(text: Bytes, faceOf: FaceAt): seq<Run> {
    if text == [] then [] else RunsFrom(text, faceOf, 0, faceOf(Next(text, 0).cp), Next(text, 0).adv)
  }

  lemma {:induction false} OneFaceExtends(text: Bytes, faceOf: FaceAt, face: nat, a: nat, b: nat)
    requires b < |text| && OneFace(text, faceOf, face, a, b) && faceOf(Next(text, b).cp) == face
    ensures OneFace(text, faceOf, face, a, b + Next(text, b).adv)
    decreases |text| - a
  {
    if a < b {
      OneFaceExtends(text, faceOf, face, a + Next(text, a).adv, b);
    } else {
      assert OneFace(text, faceOf, face, b + Next(text, b).adv, b + Next(text, b).adv);
    }
  }

  lemma {:induction false} RunsFromSegment(text: Bytes, faceOf: FaceAt, start: nat, face: nat, i: nat)
    requires start < i <= |text| && OneFace(text, faceOf, face, start, i)
    ensures var runs := RunsFrom(text, faceOf, start, face, i);
      runs != [] && runs[0].face == face && Segmented(text, faceOf, start, runs)
    decreases |text| - i
  {
    if i == |text| {
      assert [Run(face, start, i)][1..] == [];
    } else {
      var d := Next(text, i);
      var f := faceOf(d.cp);
      if f != face {
        assert OneFace(text, faceOf, f, i + d.adv, i + d.adv);
        RunsFromSegment(text, faceOf, i, f, i + d.adv);
        var rest := RunsFrom(text, faceOf, i, f, i + d.adv);
        assert ([Run(face, start, i)] + rest)[1..] == rest;
      } else {
        OneFaceExtends(text, faceOf, face, start, i);
        RunsFromSegment(text, faceOf, start, face, i + d.adv);
      }
    }
  }

  /** Any text is split into maximal runs that cover it end to end. */
  lemma RunsSegment(text: Bytes, faceOf: FaceAt)
    ensures Segmented(text, faceOf, 0, Runs(text, faceOf))
  {
    if text != [] {
      var d := Next(text, 0);
      assert OneFace(text, faceOf, faceOf(d.cp), d.adv, d.adv);
      RunsFromSegment(text, faceOf, 0, faceOf(d.cp), d.adv);
    }
  }

  /** A stretch of one face cannot be longer than another from the same place unless it goes on with the
      same face there. */
  lemma {:induction false} LongerGoesOn(text: Bytes, faceOf: FaceAt, f: nat, g: nat, a: nat, b: nat, c: nat)
    requires a < b < c <= |text| && OneFace(text, faceOf, f, a, b) && OneFace(text, faceOf, g, a, c)
    ensures f == g && faceOf(Next(text, b).cp) == g
    decreases |text| - a
  {
    var n := a + Next(text, a).adv;
    if n < b { LongerGoesOn(text, faceOf, f, g, n, b, c); }
  }

  /** There is only one such split: the runs are maximal. */
  lemma {:induction false} SegmentationUnique(text: Bytes, faceOf: FaceAt, from: nat, p: seq<Run>, q: seq<Run>)
    requires from <= |text| && Segmented(text, faceOf, from, p) && Segmented(text, faceOf, from, q)
    ensures p == q
    decreases |p|
  {
    if p != [] && q != [] {
      NotLonger(text, faceOf, from, p, q);
      NotLonger(text, faceOf, from, q, p);
      SegmentationUnique(text, faceOf, p[0].end, p[1..], q[1..]);
      assert p == [p[0]] + p[1..] && q == [q[0]] + q[1..];
    }
  }

  lemma NotLonger(text: Bytes, faceOf: FaceAt, from: nat, p: seq<Run>, q: seq<Run>)
    requires p != [] && q != [] && Segmented(text, faceOf, from, p) && Segmented(text, faceOf, from, q)
    ensures p[0].end >= q[0].end && p[0].face == q[0].face
  {
    assert |p| > 1 ==> p[1..][0] == p[1];
    if p[0].end < q[0].end {
      LongerGoesOn(text, faceOf, p[0].face, q[0].face, from, p[0].end, q[0].end);
    }
  }

  // ------------------------------------------------------------------------ the glyphs

  datatype Shaped = Shaped(index: nat, cluster: nat, advance: int)

  datatype Glyph = Glyph(index: nat, face: nat, cluster: nat, advance: int)

  /** HarfBuzz on text[start..end) of the whole text with one face; None when no font can be made. */
  type Shaper = (Bytes, Run) -> Option<seq<Shaped>>

  function WithFace(face: nat, s: seq<Shaped>): (g: seq<Glyph>)
    ensures |g| == |s|
  {
    seq(|s|, k requires 0 <= k < |s| => Glyph(s[k].index, face, s[k].cluster, s[k].advance))
  }

  function RunGlyphs(text: Bytes, nfaces: nat, shaper: Shaper, run: Run): Option<seq<Glyph>> {
    if run.face >= nfaces then None
    else
      match shaper(text, run)
      case None => None
      case Some(s) => Some(WithFace(run.face, s))
  }

  /** The glyphs of all the runs, one run after another; None when one of them fails. */
  function AllGlyphs(text: Bytes, nfaces: nat, shaper: Shaper, runs: seq<Run>): Option<seq<Glyph>> {
    if runs == [] then Some([])
    else
      match RunGlyphs(text, nfaces, shaper, runs[0])
      case None => None
      case Some(g) =>
        match AllGlyphs(text, nfaces, shaper, runs[1..])
        case None => None
        case Some(rest) => Some(g + rest)
  }

  /** They are those of each run in turn, as the shaper gives them, each with its run's face. */
  lemma {:induction false} AllGlyphsAt(text: Bytes, nfaces: nat, shaper: Shaper, runs: seq<Run>, i: nat)
    requires i < |runs| && AllGlyphs(text, nfaces, shaper, runs).Some?
    ensures runs[i].face < nfaces && shaper(text, runs[i]).Some? && AllGlyphs(text, nfaces, shaper, runs[..i]).Some?
    ensures var all, s := AllGlyphs(text, nfaces, shaper, runs).value, shaper(text, runs[i]).value;
      var at := |AllGlyphs(text, nfaces, shaper, runs[..i]).value|;
      && at + |s| <= |all|
      && (i == |runs| - 1 ==> at + |s| == |all|)
      && forall k :: 0 <= k < |s| ==> all[at + k] == Glyph(s[k].index, runs[i].face, s[k].cluster, s[k].advance)
    decreases i
  {
    var g := RunGlyphs(text, nfaces, shaper, runs[0]).value;
    var rest := AllGlyphs(text, nfaces, shaper, runs[1..]).value;
    var all := AllGlyphs(text, nfaces, shaper, runs).value;
    assert all == g + rest;
    if i > 0 {
      AllGlyphsAt(text, nfaces, shaper, runs[1..], i - 1);
      assert runs[..i][0] == runs[0] && runs[..i][1..] == runs[1..][..i - 1];
      var s := shaper(text, runs[i]).value;
      var at := |AllGlyphs(text, nfaces, shaper, runs[1..][..i - 1]).value|;
      forall k | 0 <= k < |s| ensures all[|g| + at + k] == Glyph(s[k].index, runs[i].face, s[k].cluster, s[k].advance) {
        assert all[|g| + at + k] == rest[at + k];
      }
    } else {
      assert runs[..0] == [];
      assert |runs| == 1 ==> rest == [];
    }
  }

  /** There are none exactly if some run's face is not there or its font cannot be made. */
  lemma {:induction false} NoGlyphsIff(text: Bytes, nfaces: nat, shaper: Shaper, runs: seq<Run>)
    ensures AllGlyphs(text, nfaces, shaper, runs) == None <==>
      exists i :: 0 <= i < |runs| && (runs[i].face >= nfaces || shaper(text, runs[i]) == None)
  {
    if runs != [] {
      NoGlyphsIff(text, nfaces, shaper, runs[1..]);
      if i :| 0 <= i < |runs[1..]| && (runs[1..][i].face >= nfaces || shaper(text, runs[1..][i]) == None) {
        assert runs[i + 1] == runs[1..][i];
      }
      if i :| 0 < i < |runs| && (runs[i].face >= nfaces || shaper(text, runs[i]) == None) {
        assert runs[i] == runs[1..][i - 1];
      }
    }
  }

  /** The first cells of a buffer of `cap` hold as much of the glyphs as fits. */
  ghost predicate Holds(buf: seq<Glyph>, cap: nat, g: seq<Glyph>)
    requires cap <= |buf|
  {
    forall k :: 0 <= k < |g| && k < cap ==> buf[k] == g[k]
  }

  // --------------------------------------------------------------------- ctext.c itself

  /** Nothing from `cap` on has changed. */
  ghost predicate Beyond(out: array<Glyph>, cap: nat, was: seq<Glyph>)
    reads out
  {
    |was| == out.Length && forall k :: cap <= k < out.Length ==> out[k] == was[k]
  }

  class FontTables {
    var files: seq<(string, int)>
    var styles: seq<seq<nat>>
    var roles: seq<seq<seq<nat>>>
    var primary: seq<int>
    var tried: bool                // at_font_init has been called
    var ready: bool                // and found a regular face
    const covers: Coverage
    const shaper: Shaper

    ghost function Tables(): Fonts
      reads this
    {
      Fonts(files, styles, roles, primary)
    }

    ghost predicate Valid()
      reads this
    {
      FontsOk(Tables()) && (ready ==> styles[REGULAR] != [])
    }

    ghost predicate Blank()
      reads this
    {
      files == [] && !tried && !ready && forall s :: 0 <= s < |styles| ==> styles[s] == []
    }

    constructor (covers: Coverage, shaper: Shaper)
      ensures Valid() && Blank()
    {
      this.covers, this.shaper := covers, shaper;
      files, tried, ready := [], false, false;
      styles := seq(NSTYLES, _ => []);
      roles := seq(NROLES, _ => seq(NSTYLES, _ => []));
      primary := seq(NROLES, _ => -1);
    }

    /** add_face_at: `opens` is whether FreeType can open that face of the file, twice. */
    method AddFaceAt(path: string, index: int, opens: bool) returns (gi: int)
      requires Valid()
      modifies this`files
      ensures Valid() && old(files) <= files && -1 <= gi < |files|
      ensures gi >= 0 ==> files[gi] == (path, index)
      ensures gi == -1 <==> path == "" || ((path, index) !in old(files) && (|old(files)| == MAX_FACES || !opens))
      ensures (path, index) in old(files) || gi == -1 ==> files == old(files)
    {
      if path == "" { return -1; }
      for i := 0 to |files|
        invariant (path, index) !in files[..i]
      {
        if files[i] == (path, index) { return i; }
      }
      if |files| >= MAX_FACES || !opens { return -1; }
      files := files + [(path, index)];
      gi := |files| - 1;
    }

    /** style_add. */
    method StyleAdd(style: nat, gi: int)
      requires Valid() && style < NSTYLES && gi < |files|
      modifies this`styles
      ensures Valid()
      ensures styles == if gi < 0 || |old(styles)[style]| >= MAX_FACES then old(styles)
                        else old(styles)[style := old(styles)[style] + [gi]]
    {
      if gi < 0 || |styles[style]| >= MAX_FACES { return; }
      styles := styles[style := styles[style] + [gi]];
    }

    /** One path for a style; whether it opens is for FreeType to say. */
    method AddPath(style: nat, path: string)
      requires Valid() && style < NSTYLES
      modifies this`files, this`styles
      ensures Valid() && old(files) <= files
      ensures |styles| == |old(styles)| && forall s :: 0 <= s < |styles| && s != style ==> styles[s] == old(styles)[s]
      ensures old(styles)[style] <= styles[style]
    {
      var opens: bool := *;
      var gi := AddFaceAt(path, 0, opens);
      StyleAdd(style, gi);
    }

    /** load_style_primary: every path the environment names, else the first candidate that opens. */
    method LoadPrimary(style: nat, named: seq<string>, candidates: seq<string>)
      requires Valid() && style < NSTYLES
      modifies this`files, this`styles
      ensures Valid() && old(files) <= files
      ensures |styles| == |old(styles)| && forall s :: 0 <= s < |styles| && s != style ==> styles[s] == old(styles)[s]
    {
      for i := 0 to |named|
        invariant Valid() && old(files) <= files
        invariant |styles| == |old(styles)| && forall s :: 0 <= s < |styles| && s != style ==> styles[s] == old(styles)[s]
      {
        AddPath(style, named[i]);
      }
      var i := 0;
      while i < |candidates| && styles[style] == []
        invariant Valid() && old(files) <= files
        invariant |styles| == |old(styles)| && forall s :: 0 <= s < |styles| && s != style ==> styles[s] == old(styles)[s]
      {
        AddPath(style, candidates[i]);
        i := i + 1;
      }
    }

    /** The shared fallback faces, those that open. */
    method LoadFallbacks(paths: seq<string>) returns (fb: seq<nat>)
      requires Valid()
      modifies this`files
      ensures Valid() && old(files) <= files && ListOk(fb, |files|)
    {
      fb := [];
      var i := 0;
      while i < |paths| && |fb| < MAX_FACES
        invariant Valid() && old(files) <= files && ListOk(fb, |files|)
      {
        var opens: bool := *;
        var gi := AddFaceAt(paths[i], 0, opens);
        if gi >= 0 { fb := fb + [gi]; }
        i := i + 1;
      }
    }

    /** A style's own faces, then as many of the fallbacks as fit. */
    method AppendFallbacks(style: nat, fb: seq<nat>)
      requires Valid() && style < NSTYLES && ListOk(fb, |files|)
      modifies this`styles
      ensures Valid() && |styles| == |old(styles)|
      ensures forall s :: 0 <= s < |styles| && s != style ==> styles[s] == old(styles)[s]
      ensures styles[style] == Filled(old(styles)[style], fb)
    {
      ghost var own := styles[style];
      assert Filled(own, fb[..0]) == own;
      for i := 0 to |fb|
        invariant Valid() && |styles| == |old(styles)|
        invariant forall s :: 0 <= s < |styles| && s != style ==> styles[s] == old(styles)[s]
        invariant styles[style] == Filled(own, fb[..i])
      {
        FilledNext(own, fb, i);
        StyleAdd(style, fb[i]);
      }
      assert fb[..|fb|] == fb;
    }

    /** at_font_init, once: the regular face first, then the fallbacks, the other styles' own faces, and
        the fallbacks after every style's own. `named` and `candidates` are each style's paths. */
    method Init(named: seq<seq<string>>, candidates: seq<seq<string>>, fallbacks: seq<string>)
        returns (ok: bool, ghost own: seq<seq<nat>>, ghost fb: seq<nat>)
      requires Valid() && (!tried ==> Blank()) && |named| == |candidates| == NSTYLES
      modifies this`files, this`styles, this`tried, this`ready
      ensures Valid() && tried && ok == ready
      ensures old(tried) ==> ready == old(ready) && files == old(files) && styles == old(styles)
      ensures !old(tried) && ok ==> |own| == NSTYLES && own[REGULAR] != []
      ensures !old(tried) && ok ==>
        forall s :: 0 <= s < NSTYLES ==> |own[s]| <= MAX_FACES && styles[s] == Filled(own[s], fb)
      ensures !old(tried) && !ok ==> styles[REGULAR] == []
    {
      own, fb := [], [];
      if tried { return ready, own, fb; }
      tried := true;
      var freetype: bool := *;
      if !freetype { return false, own, fb; }
      LoadPrimary(REGULAR, named[REGULAR], candidates[REGULAR]);
      if styles[REGULAR] == [] { return false, own, fb; }
      var shared := LoadFallbacks(fallbacks);
      fb := shared;
      for s := 1 to NSTYLES
        invariant Valid() && styles[REGULAR] != [] && ListOk(shared, |files|) && tried && !ready
      {
        LoadPrimary(s, named[s], candidates[s]);
      }
      own := styles;
      for s := 0 to NSTYLES
        invariant Valid() && |own| == NSTYLES && ListOk(shared, |files|) && tried && !ready
        invariant forall k :: 0 <= k < NSTYLES ==> |own[k]| <= MAX_FACES
        invariant forall k :: 0 <= k < s ==> styles[k] == Filled(own[k], shared)
        invariant own[REGULAR] != [] && forall k :: s <= k < NSTYLES ==> styles[k] == own[k]
      {
        AppendFallbacks(s, shared);
      }
      assert own[REGULAR] <= styles[REGULAR];
      ready := true;
      ok := true;
    }

    /** fc_face: fontconfig may match nothing, or a face of some file. */
    method FcFace(family: string) returns (gi: int)
      requires Valid()
      modifies this`files
      ensures Valid() && old(files) <= files && -1 <= gi < |files|
    {
      var matched: bool, file: string, index: int, opens: bool := *, *, *, *;
      gi := -1;
      if matched { gi := AddFaceAt(file, index, opens); }
    }

    /** A role's list for one style: its own face first, then as much of the default chain as fits. */
    method RoleList(first: nat, style: nat) returns (faces: seq<nat>)
      requires Valid() && style < NSTYLES && first < |files|
      ensures faces == [first] + styles[style][..if |styles[style]| < MAX_FACES then |styles[style]| else MAX_FACES - 1]
      ensures ListOk(faces, |files|)
    {
      faces := [first];
      var i := 0;
      while i < |styles[style]| && |faces| < MAX_FACES
        invariant 0 <= i <= |styles[style]| && |faces| == i + 1 <= MAX_FACES
        invariant faces == [first] + styles[style][..i]
      {
        assert styles[style][..i + 1] == styles[style][..i] + [styles[style][i]];
        faces := faces + [styles[style][i]];
        i := i + 1;
      }
    }

    /** What fontconfig finds for each style of a family. */
    method FindFaces(family: string) returns (found: seq<int>)
      requires Valid()
      modifies this`files
      ensures Valid() && old(files) <= files && |found| == NSTYLES
      ensures forall k :: 0 <= k < NSTYLES ==> -1 <= found[k] < |files|
    {
      found := [-1, -1, -1, -1];
      for s := 0 to NSTYLES
        invariant Valid() && old(files) <= files && |found| == NSTYLES
        invariant forall k :: 0 <= k < NSTYLES ==> -1 <= found[k] < |files|
      {
        var gi := FcFace(family);
        found := found[s := gi];
      }
    }

    /** The family's own face for each style, else its regular one, then the default chain. */
    method RoleLists(found: seq<int>) returns (lists: seq<seq<nat>>)
      requires Valid() && |found| == NSTYLES && found[REGULAR] >= 0
      requires forall k :: 0 <= k < NSTYLES ==> -1 <= found[k] < |files|
      ensures |lists| == NSTYLES
      ensures forall k :: 0 <= k < NSTYLES ==> ListOk(lists[k], |files|) && lists[k] != []
      ensures forall k :: 0 <= k < NSTYLES ==> lists[k][0] == (if found[k] >= 0 then found[k] else found[REGULAR])
      ensures forall k :: 0 <= k < NSTYLES ==> lists[k][1..] <= styles[k]
    {
      lists := [[], [], [], []];
      for s := 0 to NSTYLES
        invariant |lists| == NSTYLES
        invariant forall k :: 0 <= k < s ==> ListOk(lists[k], |files|) && lists[k] != []
        invariant forall k :: 0 <= k < s ==> lists[k][0] == (if found[k] >= 0 then found[k] else found[REGULAR])
        invariant forall k :: 0 <= k < s ==> lists[k][1..] <= styles[k]
      {
        var list := RoleList(if found[s] >= 0 then found[s] else found[REGULAR], s);
        lists := lists[s := list];
      }
    }

    /** at_font_set_role. `own` is what fontconfig found for each style of the family. */
    method SetRole(role: int, family: string) returns (ok: bool, ghost own: seq<int>)
      requires Valid()
      modifies this`files, this`roles, this`primary
      ensures Valid() && old(files) <= files && |own| == NSTYLES
      ensures role < 0 || role >= NROLES || !ready ==> !ok && roles == old(roles) && primary == old(primary)
      ensures forall r :: 0 <= r < NROLES && r != role ==> roles[r] == old(roles)[r] && primary[r] == old(primary)[r]
      ensures 0 <= role < NROLES && ready && !ok ==> primary[role] == -1
      ensures ok ==> 0 <= role < NROLES && own[REGULAR] >= 0 && primary[role] == own[REGULAR]
      ensures ok ==> forall s :: 0 <= s < NSTYLES ==>
        roles[role][s] != [] && roles[role][s][0] == (if own[s] >= 0 then own[s] else own[REGULAR])
        && roles[role][s][1..] <= styles[s]
    {
      own := [-1, -1, -1, -1];
      if role < 0 || role >= NROLES || !ready { return false, own; }
      roles := roles[role := [[], [], [], []]];
      primary := primary[role := -1];
      if family == "" { return false, own; }
      var found := FindFaces(family);
      own := found;
      if found[REGULAR] < 0 { return false, own; }
      var lists := RoleLists(found);
      primary := primary[role := found[REGULAR]];
      roles := roles[role := lists];
      ok := true;
    }

    /** face_for: three lists in turn, then a face of last resort. */
    method FaceFor(cp: nat, style: int, role: int) returns (gi: nat)
      requires Valid()
      ensures gi == Pick(Tables(), covers, cp, style, role)
    {
      var st := if style < 0 || style >= NSTYLES || styles[style] == [] then REGULAR else style;
      ghost var mine := if 0 <= role < NROLES && primary[role] >= 0 then roles[role][st] else [];
      FirstConcat(covers, mine + styles[st], styles[REGULAR], cp);
      FirstConcat(covers, mine, styles[st], cp);
      if 0 <= role < NROLES && primary[role] >= 0 {
        var r := Search(roles[role][st], cp);
        if r.Some? { return r.value; }
      }
      var r := Search(styles[st], cp);
      if r.Some? { return r.value; }
      r := Search(styles[REGULAR], cp);
      if r.Some? { return r.value; }
      gi := if styles[REGULAR] != [] then styles[REGULAR][0] else 0;
    }

    method Search(faces: seq<nat>, cp: nat) returns (r: Option<nat>)
      ensures r == First(covers, faces, cp)
    {
      for i := 0 to |faces|
        invariant First(covers, faces, cp) == First(covers, faces[i..], cp)
      {
        if covers(faces[i], cp) { return Some(faces[i]); }
        assert faces[i..][1..] == faces[i + 1..];
      }
      r := None;
    }

    /** shape_run: its glyphs after the `written` already there, as far as the buffer goes; -1 on error. */
    method ShapeRun(text: Bytes, run: Run, out: array<Glyph>, cap: nat, written: nat, ghost done: seq<Glyph>)
        returns (n: int)
      requires cap <= out.Length && written == |done| && Holds(out[..], cap, done)
      modifies out
      ensures Beyond(out, cap, old(out[..]))
      ensures match RunGlyphs(text, |files|, shaper, run)
        case None => n == -1
        case Some(g) => n == |g| && Holds(out[..], cap, done + g)
    {
      if run.face >= |files| { return -1; }
      match shaper(text, run)
      case None => n := -1;
      case Some(s) =>
        n := |s|;
        ghost var g := WithFace(run.face, s);
        for i := 0 to |s|
          invariant Holds(out[..], cap, done + g[..i])
          invariant Beyond(out, cap, old(out[..]))
        {
          var w := written + i;
          if w < cap {
            out[w] := Glyph(s[i].index, run.face, s[i].cluster, s[i].advance);
          }
          assert g[..i + 1] == g[..i] + [g[i]];
        }
        assert g[..|s|] == g;
    }

    /** A run is over: its glyphs go into the buffer, after those done. */
    method Flush(text: Bytes, run: Run, out: array<Glyph>, cap: nat, written: nat, ghost done: seq<Glyph>)
        returns (n: int, ghost done': seq<Glyph>)
      requires cap <= out.Length && written == |done| && Holds(out[..], cap, done)
      modifies out
      ensures Beyond(out, cap, old(out[..]))
      ensures n < 0 ==> n == -1 && RunGlyphs(text, |files|, shaper, run) == None
      ensures n >= 0 ==> |done'| == written + n && Holds(out[..], cap, done')
      ensures n >= 0 ==> RunGlyphs(text, |files|, shaper, run).Some? && done' == done + RunGlyphs(text, |files|, shaper, run).value
    {
      done' := done;
      n := ShapeRun(text, run, out, cap, written, done);
      if n >= 0 { done' := done + RunGlyphs(text, |files|, shaper, run).value; }
    }

    /** at_font_shape_role: what all the runs shape to, as much of it in the buffer as fits. The count does
        not depend on the buffer. */
    method ShapeRole(text: Bytes, style: int, role: int, out: array<Glyph>, cap: nat) returns (n: int)
      requires Valid() && cap <= out.Length
      modifies out
      ensures Beyond(out, cap, old(out[..]))
      ensures !ready ==> n == -1
      ensures ready ==>
        match AllGlyphs(text, |files|, shaper, Runs(text, FaceOf(Tables(), covers, style, role)))
        case None => n == -1
        case Some(g) => n == |g| && Holds(out[..], cap, g)
    {
      if !ready { return -1; }
      if |text| == 0 { return 0; }
      n := ShapeRuns(text, style, role, out, cap, FaceOf(Tables(), covers, style, role));
    }

    /** The face of the code point at i, and how long it is. */
    method NextFace(text: Bytes, i: nat, style: int, role: int, ghost faceOf: FaceAt) returns (f: nat, adv: nat)
      requires Valid() && i < |text| && faceOf == FaceOf(Tables(), covers, style, role)
      ensures f == faceOf(Next(text, i).cp) && adv == Next(text, i).adv
    {
      var d := Next(text, i);
      adv := d.adv;
      f := FaceFor(d.cp, style, role);
    }

    /** One code point after the first: its face goes on with the run, or ends it. */
    method Turn(text: Bytes, i: nat, style: int, role: int, out: array<Glyph>, cap: nat, runStart: nat, runFace: nat,
                written: nat, ghost faceOf: FaceAt, ghost done: seq<Glyph>, ghost total: Option<seq<Glyph>>, ghost faces: nat)
        returns (failed: bool, i': nat, runStart': nat, runFace': nat, written': nat, ghost done': seq<Glyph>)
      requires Valid() && runStart <= i < |text| && faceOf == FaceOf(Tables(), covers, style, role)
      requires faces == |files| && cap <= out.Length && written == |done| && Holds(out[..], cap, done)
      requires Owed(text, faces, shaper, faceOf, total, done, runStart, runFace, i)
      modifies out
      ensures Beyond(out, cap, old(out[..]))
      ensures failed ==> total == None
      ensures i < i' <= |text| && runStart' <= i'
      ensures !failed ==> |done'| == written' && Holds(out[..], cap, done')
      ensures !failed ==>
        Owed(text, faces, shaper, faceOf, total, done', runStart', runFace', i')
    {
      var f, adv;
      f, adv := NextFace(text, i, style, role, faceOf);
      i' := i + adv;
      failed, runStart', runFace', written', done' := false, runStart, runFace, written, done;
      if f != runFace {
        var a;
        a, done' := Flush(text, Run(runFace, runStart, i), out, cap, written, done);
        if a < 0 { failed := true; return; }
        written', runStart', runFace' := written + a, i, f;
      }
    }

    /** The loop from the second code point on: every run but the last is shaped; the last one is left from
        runStart to the end. */
    method ShapeLoop(text: Bytes, style: int, role: int, out: array<Glyph>, cap: nat, ghost faceOf: FaceAt,
                     ghost total: Option<seq<Glyph>>, ghost faces: nat, firstFace: nat, second: nat)
        returns (failed: bool, written: nat, runStart: nat, runFace: nat, ghost done: seq<Glyph>)
      requires faces == |files| && Valid() && cap <= out.Length && faceOf == FaceOf(Tables(), covers, style, role)
      requires second <= |text| && Owed(text, faces, shaper, faceOf, total, [], 0, firstFace, second)
      modifies out
      ensures Beyond(out, cap, old(out[..]))
      ensures failed ==> total == None
      ensures !failed ==> |done| == written && Holds(out[..], cap, done)
      ensures !failed ==> runStart <= |text| && Owed(text, faces, shaper, faceOf, total, done, runStart, runFace, |text|)
    {
      var i := second;
      failed, written, runStart, runFace, done := false, 0, 0, firstFace, [];
      while i < |text|
        invariant runStart <= i <= |text| && |done| == written && Holds(out[..], cap, done)
        invariant Owed(text, faces, shaper, faceOf, total, done, runStart, runFace, i)
        invariant Beyond(out, cap, old(out[..])) && !failed
        decreases |text| - i
      {
        failed, i, runStart, runFace, written, done :=
          Turn(text, i, style, role, out, cap, runStart, runFace, written, faceOf, done, total, faces);
        if failed { return; }
      }
    }

    method ShapeRuns(text: Bytes, style: int, role: int, out: array<Glyph>, cap: nat, ghost faceOf: FaceAt) returns (n: int)
      requires Valid() && cap <= out.Length && text != [] && faceOf == FaceOf(Tables(), covers, style, role)
      modifies out
      ensures Beyond(out, cap, old(out[..]))
      ensures
        match AllGlyphs(text, |files|, shaper, Runs(text, faceOf))
        case None => n == -1
        case Some(g) => n == |g| && Holds(out[..], cap, g)
    {
      ghost var total := AllGlyphs(text, |files|, shaper, Runs(text, faceOf));
      ghost var done;
      var failed, written, runStart, runFace;
      var firstFace, second := NextFace(text, 0, style, role, faceOf);
      OwedAtFirst(text, |files|, shaper, faceOf, total);
      failed, written, runStart, runFace, done :=
        ShapeLoop(text, style, role, out, cap, faceOf, total, |files|, firstFace, second);
      if failed { return -1; }
      var last := Run(runFace, runStart, |text|);
      OwedIs(text, |files|, shaper, faceOf, total, done, runStart, runFace, |text|);
      LastGlyphs(text, |files|, shaper, done, last);
      var a;
      a, done := Flush(text, last, out, cap, written, done);
      if a < 0 { return -1; }
      n := written + a;
    }

    /** font_shape_role in abyss-sys: up to the first NUL, with a bigger buffer if the first was too small. */
    method FontShapeRole(text: Bytes, style: int, role: int) returns (r: Option<seq<Glyph>>, calls: nat)
      requires Valid()
      ensures 1 <= calls <= 2
      ensures r == if ready then AllGlyphs(UpToNul(text), |files|, shaper, Runs(UpToNul(text), FaceOf(Tables(), covers, style, role)))
                   else None
    {
      var c := UpToNul(text);
      var cap: nat := |text| + 16;
      calls := 0;
      ghost var whole := AllGlyphs(c, |files|, shaper, Runs(c, FaceOf(Tables(), covers, style, role)));
      while true
        invariant calls <= 1
        invariant calls == 1 ==> ready && whole.Some? && cap == |whole.value|
        decreases 2 - calls
      {
        var buf := new Glyph[cap](_ => Glyph(0, 0, 0, 0));
        var n := ShapeRole(c, style, role, buf, cap);
        calls := calls + 1;
        if n < 0 { return None, calls; }
        if n <= cap {
          assert buf[..n] == whole.value;
          return Some(buf[..n]), calls;
        }
        cap := n;
      }
    }
  }

  /** A list with as much of `more` after it as a style has room for. */
  function Filled(own: seq<nat>, more: seq<nat>): seq<nat>
    requires |own| <= MAX_FACES
  {
    own + more[..if |own| + |more| <= MAX_FACES then |more| else MAX_FACES - |own|]
  }

  lemma FilledNext(own: seq<nat>, more: seq<nat>, i: nat)
    requires |own| <= MAX_FACES && i < |more|
    ensures Filled(own, more[..i + 1]) ==
      if |Filled(own, more[..i])| < MAX_FACES then Filled(own, more[..i]) + [more[i]] else Filled(own, more[..i])
  {
  }

  /** The face of every code point, for one style and role. */
  ghost function FaceOf(f: Fonts, covers: Coverage, style: int, role: int): FaceAt {
    (cp: nat) => if FontsOk(f) then Pick(f, covers, cp, style, role) else 0
  }

  function UpToNul(text: Bytes): (c: Bytes)
    ensures c <= text && 0 !in c && (|c| < |text| ==> text[|c|] == 0)
  {
    if text == [] || text[0] == 0 then [] else [text[0]] + UpToNul(text[1..])
  }

  function Prepend(done: seq<Glyph>, rest: Option<seq<Glyph>>): Option<seq<Glyph>> {
    if rest.Some? then Some(done + rest.value) else None
  }

  /** `total` is what is done, then the open run and everything after i. */
  ghost predicate Owed(text: Bytes, nfaces: nat, shaper: Shaper, faceOf: FaceAt, total: Option<seq<Glyph>>,
                       done: seq<Glyph>, start: nat, face: nat, i: nat)
    requires start <= i <= |text|
    decreases |text| - i
  {
    if i == |text| then total == Prepend(done, AllGlyphs(text, nfaces, shaper, [Run(face, start, i)]))
    else
      var d := Next(text, i);
      var f := faceOf(d.cp);
      if f == face then Owed(text, nfaces, shaper, faceOf, total, done, start, face, i + d.adv)
      else
        match RunGlyphs(text, nfaces, shaper, Run(face, start, i))
        case None => total == None
        case Some(g) => Owed(text, nfaces, shaper, faceOf, total, done + g, i, f, i + d.adv)
  }

  lemma {:induction false} OwedIs(text: Bytes, nfaces: nat, shaper: Shaper, faceOf: FaceAt, total: Option<seq<Glyph>>,
                                  done: seq<Glyph>, start: nat, face: nat, i: nat)
    requires start <= i <= |text|
    ensures Owed(text, nfaces, shaper, faceOf, total, done, start, face, i) <==>
      total == Prepend(done, AllGlyphs(text, nfaces, shaper, RunsFrom(text, faceOf, start, face, i)))
    decreases |text| - i
  {
    if i < |text| {
      var d := Next(text, i);
      var f := faceOf(d.cp);
      var run := Run(face, start, i);
      if f == face {
        OwedIs(text, nfaces, shaper, faceOf, total, done, start, face, i + d.adv);
      } else {
        GlyphsFront(text, nfaces, shaper, done, run, RunsFrom(text, faceOf, i, f, i + d.adv));
        var g := RunGlyphs(text, nfaces, shaper, run);
        if g.Some? { OwedIs(text, nfaces, shaper, faceOf, total, done + g.value, i, f, i + d.adv); }
      }
    }
  }

  lemma OwedAtFirst(text: Bytes, nfaces: nat, shaper: Shaper, faceOf: FaceAt, total: Option<seq<Glyph>>)
    requires text != [] && total == AllGlyphs(text, nfaces, shaper, Runs(text, faceOf))
    ensures var d := Next(text, 0); Owed(text, nfaces, shaper, faceOf, total, [], 0, faceOf(d.cp), d.adv)
  {
    var d := Next(text, 0);
    OwedIs(text, nfaces, shaper, faceOf, total, [], 0, faceOf(d.cp), d.adv);
    PrependNothing(total);
  }

  lemma LastGlyphs(text: Bytes, nfaces: nat, shaper: Shaper, done: seq<Glyph>, run: Run)
    ensures Prepend(done, AllGlyphs(text, nfaces, shaper, [run])) ==
      match RunGlyphs(text, nfaces, shaper, run)
      case None => None
      case Some(g) => Some(done + g)
  {
    GlyphsFront(text, nfaces, shaper, done, run, []);
    assert [run] + [] == [run];
    var g := RunGlyphs(text, nfaces, shaper, run);
    if g.Some? { assert done + g.value + [] == done + g.value; }
  }

  lemma PrependNothing(rest: Option<seq<Glyph>>)
    ensures Prepend([], rest) == rest
  {
    if rest.Some? { assert [] + rest.value == rest.value; }
  }

  lemma GlyphsFront(text: Bytes, nfaces: nat, shaper: Shaper, done: seq<Glyph>, run: Run, rest: seq<Run>)
    ensures Prepend(done, AllGlyphs(text, nfaces, shaper, [run] + rest)) ==
      match RunGlyphs(text, nfaces, shaper, run)
      case None => None
      case Some(g) => Prepend(done + g, AllGlyphs(text, nfaces, shaper, rest))
  {
    assert ([run] + rest)[1..] == rest;
    var g, r := RunGlyphs(text, nfaces, shaper, run), AllGlyphs(text, nfaces, shaper, rest);
    if g.Some? && r.Some? { assert done + (g.value + r.value) == done + g.value + r.value; }
  }
}
