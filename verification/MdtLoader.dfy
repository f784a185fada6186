/** The MDT firmware loader of kmod/drm-msm/freebsd/msm_freebsd_misc.c: an ELF32 image, whole or split
    into one file per segment, is checked and copied segment by segment into a memory region. */
module MdtLoader {

  type Byte = x: int | 0 <= x < 256

  const EINVAL: int := 22
  const ENOMEM: int := 12
  const U64: nat := 0x1_0000_0000_0000_0000
  const PAGE: nat := 4096
  const MAX_HASH: nat := 1024 * 1024

  // ------------------------------------------------------------------- ELF32 headers

  function U16(b: seq<Byte>, o: nat): (v: nat)
    requires o + 2 <= |b|
    ensures v < 0x1_0000
  {
    b[o] as int + 256 * b[o + 1] as int
  }

  function U32(b: seq<Byte>, o: nat): (v: nat)
    requires o + 4 <= |b|
    ensures v < 0x1_0000_0000
  {
    U16(b, o) + 0x1_0000 * U16(b, o + 2)
  }

  /** The fields of Elf32_Phdr the loader reads. */
  datatype Phdr = Phdr(kind: nat, offset: nat, paddr: nat, filesz: nat, memsz: nat, flags: nat)

  function PhdrAt(b: seq<Byte>, o: nat): (p: Phdr)
    requires o + 32 <= |b|
    ensures p.paddr < 0x1_0000_0000 && p.memsz < 0x1_0000_0000
  {
    Phdr(U32(b, o), U32(b, o + 4), U32(b, o + 12), U32(b, o + 16), U32(b, o + 20), U32(b, o + 24))
  }

  predicate HeadersOk(fw: seq<Byte>) {
    && |fw| >= 52
    && fw[0] == 0x7f && fw[1] == 'E' as int && fw[2] == 'L' as int && fw[3] == 'F' as int
    && fw[4] == 1
    && U16(fw, 42) == 32
    && U32(fw, 28) + U16(fw, 44) * 32 <= |fw|
  }

  function Phdrs(fw: seq<Byte>): (ph: seq<Phdr>)
    requires HeadersOk(fw)
    ensures forall p :: p in ph ==> p.paddr < 0x1_0000_0000 && p.memsz < 0x1_0000_0000
  {
    seq(U16(fw, 44), i requires 0 <= i < U16(fw, 44) => PhdrAt(fw, U32(fw, 28) + 32 * i))
  }

  predicate IsHash(p: Phdr) { (p.flags / 0x100_0000) % 8 == 2 }

  predicate IsRelocatable(p: Phdr) { (p.flags / 0x800_0000) % 2 == 1 }

  predicate Loadable(p: Phdr) { p.kind == 1 && !IsHash(p) && p.memsz != 0 }

  /** Bits 24 to 26 of the flags are the segment's type, 2 for the hash segment; bit 27 marks a relocatable
      image. */
  lemma FlagFields(p: Phdr, low: nat, kind: nat, reloc: nat, high: nat)
    requires low < 0x100_0000 && kind < 8 && reloc < 2
    requires p.flags == ((high * 2 + reloc) * 8 + kind) * 0x100_0000 + low
    ensures IsHash(p) <==> kind == 2
    ensures IsRelocatable(p) <==> reloc == 1
  {
    assert p.flags / 0x100_0000 == (high * 2 + reloc) * 8 + kind;
    assert p.flags / 0x800_0000 == high * 2 + reloc by {
      assert p.flags == (high * 2 + reloc) * 0x800_0000 + (kind * 0x100_0000 + low);
    }
  }

  // ----------------------------------------------------------------------- the span

  function RoundUp(x: nat): nat { ((x + (PAGE - 1)) / PAGE) * PAGE }

  datatype Span = Span(min: nat, max: nat, reloc: bool)

  /** The loadable segments of a prefix span min..max, in page-rounded ends. */
  ghost predicate Spans(ph: seq<Phdr>, s: Span) {
    && (forall p :: p in ph && Loadable(p) ==> s.min <= p.paddr && RoundUp(p.paddr + p.memsz) <= s.max)
    && (s.min == U64 - 1 || exists p :: p in ph && Loadable(p) && p.paddr == s.min)
    && (s.max == 0 || exists p :: p in ph && Loadable(p) && RoundUp(p.paddr + p.memsz) == s.max)
    && (s.reloc <==> exists p :: p in ph && Loadable(p) && IsRelocatable(p))
  }

  lemma RoundUpBounds(x: nat)
    ensures x <= RoundUp(x) < x + PAGE
  {
  }

  lemma SpanUnique(ph: seq<Phdr>, a: Span, b: Span)
    requires Spans(ph, a) && Spans(ph, b)
    requires forall p :: p in ph ==> p.paddr < 0x1_0000_0000 && p.memsz < 0x1_0000_0000
    ensures a == b
  {
    forall p | p in ph && Loadable(p) ensures 0 < RoundUp(p.paddr + p.memsz) {
      RoundUpBounds(p.paddr + p.memsz);
    }
  }

  ghost predicate HasLoadable(ph: seq<Phdr>) {
    exists p :: p in ph && Loadable(p)
  }

  lemma SpanGrows(ph: seq<Phdr>, p: Phdr, s: Span, t: Span)
    requires Spans(ph, s) && p.paddr < 0x1_0000_0000 && p.memsz < 0x1_0000_0000
    requires s.min < s.max <==> HasLoadable(ph)
    requires var end := RoundUp(p.paddr + p.memsz);
      t == if !Loadable(p) then s
           else Span(if s.min < p.paddr then s.min else p.paddr, if s.max > end then s.max else end,
                     s.reloc || IsRelocatable(p))
    ensures Spans(ph + [p], t) && (t.min < t.max <==> HasLoadable(ph + [p]))
  {
    RoundUpBounds(p.paddr + p.memsz);
    assert p in ph + [p];
    assert forall q :: q in ph + [p] <==> q in ph || q == p;
    assert HasLoadable(ph + [p]) <==> HasLoadable(ph) || Loadable(p);
  }

  /** mdt_span. */
  method MdtSpan(ph: seq<Phdr>) returns (s: Span)
    requires forall p :: p in ph ==> p.paddr < 0x1_0000_0000 && p.memsz < 0x1_0000_0000
    ensures Spans(ph, s)
    ensures s.min < s.max <==> HasLoadable(ph)
  {
    var min: nat, max: nat, reloc := U64 - 1, 0, false;
    for i := 0 to |ph|
      invariant Spans(ph[..i], Span(min, max, reloc))
      invariant min < max <==> HasLoadable(ph[..i])
    {
      ghost var before := Span(min, max, reloc);
      assert ph[..i + 1] == ph[..i] + [ph[i]];
      if Loadable(ph[i]) {
        if IsRelocatable(ph[i]) { reloc := true; }
        min := if min < ph[i].paddr then min else ph[i].paddr;
        var end := RoundUp(ph[i].paddr + ph[i].memsz);
        max := if max > end then max else end;
      }
      SpanGrows(ph[..i], ph[i], before, Span(min, max, reloc));
    }
    assert ph[..|ph|] == ph;
    s := Span(min, max, reloc);
  }

  /** qcom_mdt_get_size. */
  method GetSize(fw: seq<Byte>) returns (size: int)
    ensures !HeadersOk(fw) || !HasLoadable(Phdrs(fw)) ==> size == -EINVAL
    ensures HeadersOk(fw) && HasLoadable(Phdrs(fw)) ==>
      exists s :: Spans(Phdrs(fw), s) && size == s.max - s.min && size > 0
  {
    if !HeadersOk(fw) { return -EINVAL; }
    var s := MdtSpan(Phdrs(fw));
    if s.min < s.max { return s.max - s.min; }
    return -EINVAL;
  }

  // ------------------------------------------------------------- where segments come from

  type Code = e: int | e != 0 witness 1

  datatype Fetched = Found(data: seq<Byte>) | Missing(error: Code)

  type Files = string -> Fetched

  function Digit(d: nat): char
    requires d < 10
  {
    "0123456789"[d]
  }

  /** snprintf keeps three characters of "b%02d": the first two digits of n. */
  function Leading(n: nat): (m: nat)
    ensures m < 100
  {
    if n < 100 then n else Leading(n / 10)
  }

  function SplitName(fwName: string, n: nat): string
    requires |fwName| >= 4
  {
    fwName[..|fwName| - 3] + ['b', Digit(Leading(n) / 10), Digit(Leading(n) % 10)]
  }

  /** Two segments have files of their own exactly when their first two digits differ: always below
      100 segments, and not beyond. */
  lemma SplitNamesDiffer(fwName: string, n: nat, m: nat)
    requires |fwName| >= 4
    ensures SplitName(fwName, n) != SplitName(fwName, m) <==> Leading(n) != Leading(m)
    ensures n < 100 && m < 100 && n != m ==> SplitName(fwName, n) != SplitName(fwName, m)
    ensures SplitName(fwName, 100) == SplitName(fwName, 10)
  {
    var a, b := SplitName(fwName, n), SplitName(fwName, m);
    var k := |fwName| - 3;
    assert a[k + 1] == Digit(Leading(n) / 10) && a[k + 2] == Digit(Leading(n) % 10);
    assert b[k + 1] == Digit(Leading(m) / 10) && b[k + 2] == Digit(Leading(m) % 10);
    DigitInjective(Leading(n) / 10, Leading(m) / 10);
    DigitInjective(Leading(n) % 10, Leading(m) % 10);
    assert Leading(100) == 10;
  }

  function Pow10(k: nat): nat { if k == 0 then 1 else 10 * Pow10(k - 1) }

  /** The first digits: what is left after k of them are dropped from the end. */
  lemma {:induction false} LeadingIs(n: nat) returns (k: nat, dropped: nat)
    ensures n == Leading(n) * Pow10(k) + dropped && dropped < Pow10(k)
    ensures if n < 100 then k == 0 else Leading(n) >= 10
  {
    if n < 100 {
      k, dropped := 0, 0;
    } else {
      k, dropped := LeadingIs(n / 10);
      assert n == (Leading(n) * Pow10(k) + dropped) * 10 + n % 10;
      k, dropped := k + 1, dropped * 10 + n % 10;
    }
  }

  /** A three-letter extension gives way to b and the segment's number in two digits. */
  lemma SplitNameIs(stem: string, extension: string, tens: nat, units: nat)
    requires |stem| > 0 && |extension| == 3 && tens < 10 && units < 10
    ensures SplitName(stem + extension, 10 * tens + units) == stem + ['b', '0' + tens as char, '0' + units as char]
  {
    DigitIs(tens);
    DigitIs(units);
    assert (stem + extension)[..|stem|] == stem;
  }

  lemma DigitIs(d: nat)
    requires d < 10
    ensures Digit(d) == '0' + d as char
  {
  }

  lemma DigitInjective(a: nat, b: nat)
    requires a < 10 && b < 10
    ensures Digit(a) == Digit(b) ==> a == b
  {
  }

  /** mdt_read_seg and mdt_load_split: a segment's file bytes, exactly p_filesz of them. */
  function ReadSeg(fw: seq<Byte>, p: Phdr, n: nat, fwName: string, files: Files): (r: Fetched)
    ensures r.Found? ==> |r.data| == p.filesz
  {
    if p.filesz == 0 then Found([])
    else if p.offset < |fw| && p.offset + p.filesz <= |fw| then Found(fw[p.offset..p.offset + p.filesz])
    else if |fwName| < 4 then Missing(-EINVAL)
    else
      match files(SplitName(fwName, n))
      case Missing(e) => Missing(e)
      case Found(data) => if |data| != p.filesz then Missing(-EINVAL) else Found(data)
  }

  /** A segment with bytes comes from where it says in the file when the file reaches there, and otherwise,
      whole, from a file of its own. */
  lemma SegmentBytes(fw: seq<Byte>, p: Phdr, n: nat, fwName: string, files: Files)
    requires p.filesz > 0
    ensures var r, inside := ReadSeg(fw, p, n, fwName, files), p.offset + p.filesz <= |fw|;
      && (inside ==> r.Found? && forall k :: 0 <= k < p.filesz ==> r.data[k] == fw[p.offset + k])
      && (!inside && |fwName| < 4 ==> r == Missing(-22))
      && (!inside && |fwName| >= 4 ==>
            match files(SplitName(fwName, n))
            case Missing(e) => r == Missing(e)
            case Found(data) => r == if |data| == p.filesz then Found(data) else Missing(-22))
  {
  }

  // ------------------------------------------------------------------ loading segments

  /** C's conversion to s64 of a 64-bit value. */
  function ToS64(x: int): int {
    var m := x % U64;
    if m < U64 / 2 then m else m - U64
  }

  /** (s64)p_paddr - (s64)base. */
  function Off(p: Phdr, base: nat): int { ToS64(p.paddr - base) }

  predicate InRange(p: Phdr, base: nat, memSize: nat) {
    Off(p, base) >= 0 && Off(p, base) + p.memsz <= memSize
  }

  /** For a region below 2^63, the check is that the segment lies in it. */
  lemma InRangeIs(p: Phdr, base: nat, memSize: nat)
    requires p.paddr < 0x1_0000_0000 && base < U64 / 2
    ensures InRange(p, base, memSize) <==> base <= p.paddr && p.paddr + p.memsz <= base + memSize
  {
  }

  /** What lets segment n be loaded. */
  predicate Fits(fw: seq<Byte>, p: Phdr, n: nat, fwName: string, files: Files, base: nat, memSize: nat) {
    InRange(p, base, memSize) && p.filesz <= p.memsz && ReadSeg(fw, p, n, fwName, files).Found?
  }

  /** The bytes a segment occupies: its file's, then zeros up to p_memsz. */
  function Padded(data: seq<Byte>, memsz: nat): (r: seq<Byte>)
    requires |data| <= memsz
    ensures |r| == memsz
  {
    data + seq(memsz - |data|, _ => 0)
  }

  function Write(region: seq<Byte>, off: nat, bytes: seq<Byte>): (r: seq<Byte>)
    requires off + |bytes| <= |region|
    ensures |r| == |region|
  {
    region[..off] + bytes + region[off + |bytes|..]
  }

  datatype Loaded = Loaded(region: seq<Byte>, error: int)

  /** The segments from i on, in order, up to the first that cannot be loaded. */
  function LoadFrom(fw: seq<Byte>, ph: seq<Phdr>, i: nat, fwName: string, files: Files,
                    base: nat, memSize: nat, region: seq<Byte>): (r: Loaded)
    requires i <= |ph| && memSize <= |region|
    ensures |r.region| == |region|
    decreases |ph| - i
  {
    if i == |ph| then Loaded(region, 0)
    else if !Loadable(ph[i]) then LoadFrom(fw, ph, i + 1, fwName, files, base, memSize, region)
    else if !InRange(ph[i], base, memSize) || ph[i].filesz > ph[i].memsz then Loaded(region, -EINVAL)
    else
      match ReadSeg(fw, ph[i], i, fwName, files)
      case Missing(e) => Loaded(region, e)
      case Found(data) =>
        LoadFrom(fw, ph, i + 1, fwName, files, base, memSize,
                 Write(region, Off(ph[i], base), Padded(data, ph[i].memsz)))
  }

  predicate Covers(p: Phdr, base: nat, k: int) {
    Loadable(p) && Off(p, base) <= k < Off(p, base) + p.memsz
  }

  /** The byte segment n puts at place k of the region. */
  function ByteAt(fw: seq<Byte>, p: Phdr, n: nat, fwName: string, files: Files, base: nat, k: int): (b: Byte)
    requires Covers(p, base, k) && ReadSeg(fw, p, n, fwName, files).Found?
  {
    if k - Off(p, base) < p.filesz then ReadSeg(fw, p, n, fwName, files).data[k - Off(p, base)] else 0
  }

  /** Loading succeeds exactly when every loadable segment fits. */
  lemma {:induction false} SucceedsIff(fw: seq<Byte>, ph: seq<Phdr>, i: nat, fwName: string, files: Files,
                                       base: nat, memSize: nat, region: seq<Byte>)
    requires i <= |ph| && memSize <= |region|
    ensures LoadFrom(fw, ph, i, fwName, files, base, memSize, region).error == 0 <==>
      forall n :: i <= n < |ph| && Loadable(ph[n]) ==> Fits(fw, ph[n], n, fwName, files, base, memSize)
    decreases |ph| - i
  {
    if i < |ph| {
      if !Loadable(ph[i]) {
        SucceedsIff(fw, ph, i + 1, fwName, files, base, memSize, region);
      } else if Fits(fw, ph[i], i, fwName, files, base, memSize) {
        var data := ReadSeg(fw, ph[i], i, fwName, files).data;
        SucceedsIff(fw, ph, i + 1, fwName, files, base, memSize,
                    Write(region, Off(ph[i], base), Padded(data, ph[i].memsz)));
      }
    }
  }

  /** After a successful load, a byte no segment covers is what it was, and a covered one is the byte
      of the last segment that covers it. Bytes past memSize are never covered. */
  lemma {:induction false} LastSegmentWins(fw: seq<Byte>, ph: seq<Phdr>, i: nat, fwName: string, files: Files,
                                           base: nat, memSize: nat, region: seq<Byte>, k: nat)
    requires i <= |ph| && memSize <= |region| && k < |region|
    requires LoadFrom(fw, ph, i, fwName, files, base, memSize, region).error == 0
    ensures var out := LoadFrom(fw, ph, i, fwName, files, base, memSize, region).region;
      && ((forall n :: i <= n < |ph| ==> !Covers(ph[n], base, k)) ==> out[k] == region[k])
      && (forall n :: i <= n < |ph| && Covers(ph[n], base, k) && (forall m :: n < m < |ph| ==> !Covers(ph[m], base, k)) ==>
            k < memSize && ReadSeg(fw, ph[n], n, fwName, files).Found?
            && out[k] == ByteAt(fw, ph[n], n, fwName, files, base, k))
    decreases |ph| - i
  {
    if i < |ph| {
      if !Loadable(ph[i]) {
        LastSegmentWins(fw, ph, i + 1, fwName, files, base, memSize, region, k);
      } else {
        var data := ReadSeg(fw, ph[i], i, fwName, files).data;
        var next := Write(region, Off(ph[i], base), Padded(data, ph[i].memsz));
        LastSegmentWins(fw, ph, i + 1, fwName, files, base, memSize, next, k);
        if !Covers(ph[i], base, k) {
          assert next[k] == region[k];
        } else {
          assert next[k] == Padded(data, ph[i].memsz)[k - Off(ph[i], base)];
        }
      }
    }
  }

  /** A load that fails has loaded exactly the segments before the one that stopped it. */
  lemma {:induction false} FailureIsAPrefix(fw: seq<Byte>, ph: seq<Phdr>, i: nat, fwName: string, files: Files,
                                            base: nat, memSize: nat, region: seq<Byte>)
      returns (n: nat)
    requires i <= |ph| && memSize <= |region|
    requires LoadFrom(fw, ph, i, fwName, files, base, memSize, region).error != 0
    ensures i <= n < |ph| && Loadable(ph[n]) && !Fits(fw, ph[n], n, fwName, files, base, memSize)
    ensures LoadFrom(fw, ph[..n], i, fwName, files, base, memSize, region)
         == Loaded(LoadFrom(fw, ph, i, fwName, files, base, memSize, region).region, 0)
    decreases |ph| - i
  {
    if !Loadable(ph[i]) {
      n := FailureIsAPrefix(fw, ph, i + 1, fwName, files, base, memSize, region);
    } else if !Fits(fw, ph[i], i, fwName, files, base, memSize) {
      n := i;
    } else {
      var data := ReadSeg(fw, ph[i], i, fwName, files).data;
      n := FailureIsAPrefix(fw, ph, i + 1, fwName, files, base, memSize,
                            Write(region, Off(ph[i], base), Padded(data, ph[i].memsz)));
    }
  }

  ghost predicate Disjoint(ph: seq<Phdr>, base: nat) {
    forall n, m, k :: 0 <= n < m < |ph| && Covers(ph[n], base, k) ==> !Covers(ph[m], base, k)
  }

  /** The firmware image: over disjoint segments, the region holds every segment's file bytes, zeros
      after them, and is untouched everywhere else. */
  lemma FirmwareImage(fw: seq<Byte>, ph: seq<Phdr>, fwName: string, files: Files, base: nat, memSize: nat,
                      region: seq<Byte>, n: nat)
    requires memSize <= |region| && n < |ph| && Loadable(ph[n]) && Disjoint(ph, base)
    requires LoadFrom(fw, ph, 0, fwName, files, base, memSize, region).error == 0
    ensures var out := LoadFrom(fw, ph, 0, fwName, files, base, memSize, region).region;
      var off := Off(ph[n], base);
      && 0 <= off && off + ph[n].filesz <= off + ph[n].memsz <= memSize
      && ReadSeg(fw, ph[n], n, fwName, files) == Found(out[off..off + ph[n].filesz])
      && (forall k :: off + ph[n].filesz <= k < off + ph[n].memsz ==> out[k] == 0)
      && (forall k :: 0 <= k < |region| && (forall m :: 0 <= m < |ph| ==> !Covers(ph[m], base, k)) ==> out[k] == region[k])
  {
    SucceedsIff(fw, ph, 0, fwName, files, base, memSize, region);
    assert Fits(fw, ph[n], n, fwName, files, base, memSize);
    var out := LoadFrom(fw, ph, 0, fwName, files, base, memSize, region).region;
    var off := Off(ph[n], base);
    forall k | 0 <= k < |region|
      ensures (forall m :: 0 <= m < |ph| ==> !Covers(ph[m], base, k)) ==> out[k] == region[k]
      ensures off <= k < off + ph[n].memsz ==> out[k] == ByteAt(fw, ph[n], n, fwName, files, base, k)
    {
      LastSegmentWins(fw, ph, 0, fwName, files, base, memSize, region, k);
      assert off <= k < off + ph[n].memsz ==> Covers(ph[n], base, k);
    }
    assert out[off..off + ph[n].filesz] == ReadSeg(fw, ph[n], n, fwName, files).data;
  }

  /** The range check of a relocatable image: it passes for every segment exactly when the region
      reaches the unrounded end of the last one, so always when it is qcom_mdt_get_size long. */
  lemma RelocatableFits(ph: seq<Phdr>, s: Span, memSize: nat)
    requires Spans(ph, s) && s.min < s.max
    requires forall p :: p in ph ==> p.paddr < 0x1_0000_0000 && p.memsz < 0x1_0000_0000
    ensures (forall p :: p in ph && Loadable(p) ==> InRange(p, s.min, memSize)) <==>
      (forall p :: p in ph && Loadable(p) ==> p.paddr + p.memsz - s.min <= memSize)
    ensures memSize >= s.max - s.min ==> forall p :: p in ph && Loadable(p) ==> InRange(p, s.min, memSize)
  {
    forall p | p in ph && Loadable(p)
      ensures Off(p, s.min) == p.paddr - s.min && p.paddr + p.memsz <= s.max
    {
      RoundUpBounds(p.paddr + p.memsz);
    }
  }

  // ------------------------------------------------------------------------ the loader

  /** The answers the loader gets from outside: memory, and the secure monitor's two calls. */
  datatype World = World(files: Files, memory: bool, initImage: int, memSetup: int)

  function FirstHash(ph: seq<Phdr>): (h: nat)
    ensures h <= |ph|
    ensures h < |ph| ==> IsHash(ph[h])
    ensures forall j :: 0 <= j < h ==> !IsHash(ph[j])
  {
    if ph == [] || IsHash(ph[0]) then 0 else 1 + FirstHash(ph[1..])
  }

  lemma FirstHashIs(ph: seq<Phdr>, h: nat)
    requires h <= |ph| && (h < |ph| ==> IsHash(ph[h])) && forall j :: 0 <= j < h ==> !IsHash(ph[j])
    ensures FirstHash(ph) == h
  {
  }

  /** What is handed to the secure monitor: the headers and the hash segment, packed or on its own. */
  function Metadata(fw: seq<Byte>, ph: seq<Phdr>, fwName: string, files: Files): (r: Fetched)
    requires |ph| > 0 && FirstHash(ph) < |ph| && ph[0].filesz <= |fw|
    ensures var h := FirstHash(ph);
      && (r.Found? ==> |r.data| == ph[0].filesz + ph[h].filesz && r.data[..ph[0].filesz] == fw[..ph[0].filesz])
      && (ph[0].filesz + ph[h].filesz == |fw| ==> r == Found(fw))
      && (ph[0].filesz + ph[h].filesz != |fw| ==>
            match ReadSeg(fw, ph[h], h, fwName, files)
            case Missing(e) => r == Missing(e)
            case Found(data) => r.Found? && r.data[ph[0].filesz..] == data)
  {
    var h := FirstHash(ph);
    var hdr := ph[0].filesz;
    if hdr + ph[h].filesz == |fw| then Found(fw[..hdr] + fw[hdr..hdr + ph[h].filesz])
    else
      match ReadSeg(fw, ph[h], h, fwName, files)
      case Missing(e) => Missing(e)
      case Found(data) => Found(fw[..hdr] + data)
  }

  /** Why the loader gives up before it touches the region; 0 when it goes on. */
  function Refused(fw: seq<Byte>, fwName: string, w: World): int {
    if !HeadersOk(fw) then -EINVAL
    else
      var ph := Phdrs(fw);
      var h := FirstHash(ph);
      if h == |ph| || ph[0].filesz > |fw| || ph[h].filesz > MAX_HASH then -EINVAL
      else if !w.memory then -ENOMEM
      else
        match Metadata(fw, ph, fwName, w.files)
        case Missing(e) => e
        case Found(_) => -w.initImage
  }

  /** The loader goes on exactly with a well-formed file whose first segment's size the file has, whose first
      hash segment is of at most 1 MiB and can be read, with memory for both, once the monitor takes them. */
  lemma GoesOnIff(fw: seq<Byte>, fwName: string, w: World)
    ensures Refused(fw, fwName, w) == 0 <==>
      HeadersOk(fw) && w.memory && w.initImage == 0 && exists h: nat :: Sendable(fw, Phdrs(fw), h, fwName, w.files)
  {
    if HeadersOk(fw) {
      var ph := Phdrs(fw);
      var first := FirstHash(ph);
      forall h: nat | Sendable(fw, ph, h, fwName, w.files) ensures h == first { FirstHashIs(ph, h); }
      if Refused(fw, fwName, w) == 0 { assert Sendable(fw, ph, first, fwName, w.files); }
    }
  }

  /** h is the first hash segment, and the headers and it can be put together. */
  ghost predicate Sendable(fw: seq<Byte>, ph: seq<Phdr>, h: nat, fwName: string, files: Files) {
    && h < |ph| && IsHash(ph[h]) && (forall j :: 0 <= j < h ==> !IsHash(ph[j]))
    && ph[0].filesz <= |fw| && ph[h].filesz <= 1048576
    && (ph[0].filesz + ph[h].filesz == |fw| || ReadSeg(fw, ph[h], h, fwName, files).Found?)
  }

  /** The meta buffer, filled in place as the C does. */
  method FillMeta(fw: seq<Byte>, ph: seq<Phdr>, hash: nat, fwName: string, files: Files)
      returns (error: int, meta: array<Byte>)
    requires hash < |ph| && hash == FirstHash(ph) && ph[0].filesz <= |fw|
    ensures fresh(meta)
    ensures match Metadata(fw, ph, fwName, files)
      case Missing(e) => error == e
      case Found(data) => error == 0 && meta[..] == data
  {
    var hdr, size := ph[0].filesz, ph[hash].filesz;
    meta := new Byte[hdr + size](_ => 0);
    error := 0;
    forall k | 0 <= k < hdr { meta[k] := fw[k]; }
    if hdr + size == |fw| {
      forall k | 0 <= k < size { meta[hdr + k] := fw[hdr + k]; }
    } else {
      match ReadSeg(fw, ph[hash], hash, fwName, files)
      case Missing(e) => error := e;
      case Found(data) => forall k | 0 <= k < size { meta[hdr + k] := data[k]; }
    }
  }

  method CopyAndZero(region: array<Byte>, off: nat, data: seq<Byte>, memsz: nat)
    requires |data| <= memsz && off + memsz <= region.Length
    modifies region
    ensures region[..] == Write(old(region[..]), off, Padded(data, memsz))
  {
    forall k | 0 <= k < |data| { region[off + k] := data[k]; }
    forall k | off + |data| <= k < off + memsz { region[k] := 0; }
    assert region[..] == Write(old(region[..]), off, Padded(data, memsz));
  }

  /** qcom_mdt_load's loop over the segments. */
  method LoadSegments(fw: seq<Byte>, ph: seq<Phdr>, fwName: string, files: Files, region: array<Byte>,
                      base: nat, memSize: nat) returns (error: int)
    requires memSize <= region.Length
    modifies region
    ensures LoadFrom(fw, ph, 0, fwName, files, base, memSize, old(region[..])) == Loaded(region[..], error)
  {
    ghost var whole := LoadFrom(fw, ph, 0, fwName, files, base, memSize, region[..]);
    for i := 0 to |ph|
      invariant LoadFrom(fw, ph, i, fwName, files, base, memSize, region[..]) == whole
    {
      if Loadable(ph[i]) {
        var off := ToS64(ph[i].paddr - base);
        if off < 0 || off + ph[i].memsz > memSize { return -EINVAL; }
        if ph[i].filesz > ph[i].memsz { return -EINVAL; }
        match ReadSeg(fw, ph[i], i, fwName, files) {
          case Missing(e) => return e;
          case Found(data) => CopyAndZero(region, off, data, ph[i].memsz);
        }
      }
    }
    error := 0;
  }

  /** qcom_mdt_load: the headers, the metadata for the secure monitor, the span, then the segments.
      `sent` is the metadata the monitor gets and `told` the size it is told for a relocatable image. */
  method QcomMdtLoad(fw: seq<Byte>, fwName: string, region: array<Byte>, memPhys: nat, memSize: nat, w: World)
      returns (error: int, base: nat, ghost span: Span, sent: seq<Byte>, told: nat)
    requires memSize <= region.Length && memPhys < U64
    modifies region
    ensures HeadersOk(fw) && Refused(fw, fwName, w.(initImage := 0)) == 0 ==>
      Metadata(fw, Phdrs(fw), fwName, w.files) == Found(sent)
    ensures Refused(fw, fwName, w) != 0 ==> error == Refused(fw, fwName, w) && region[..] == old(region[..])
    ensures Refused(fw, fwName, w) == 0 ==>
      && HeadersOk(fw) && Spans(Phdrs(fw), span)
      && base == (if span.reloc then span.min else memPhys)
      && (span.reloc ==> told == span.max - span.min)
      && (if span.reloc && w.memSetup != 0 then error == -w.memSetup && region[..] == old(region[..])
          else LoadFrom(fw, Phdrs(fw), 0, fwName, w.files, base, memSize, old(region[..])) == Loaded(region[..], error))
  {
    error, base, span, sent, told := -EINVAL, 0, Span(0, 0, false), [], 0;
    if !HeadersOk(fw) { return; }
    var ph := Phdrs(fw);
    var hash := 0;
    while hash < |ph| && !IsHash(ph[hash])
      invariant hash <= |ph| && forall j :: 0 <= j < hash ==> !IsHash(ph[j])
    {
      hash := hash + 1;
    }
    FirstHashIs(ph, hash);
    if hash == |ph| || ph[0].filesz > |fw| { return; }
    if ph[hash].filesz > MAX_HASH { return; }
    if !w.memory { error := -ENOMEM; return; }
    var meta;
    error, meta := FillMeta(fw, ph, hash, fwName, w.files);
    if error == 0 {
      sent := meta[..];
      error := -w.initImage;
    }
    if error != 0 { return; }

    var s := MdtSpan(ph);
    span := s;
    base := if s.reloc then s.min else memPhys;
    if s.reloc {
      told := s.max - s.min;
      error := -w.memSetup;
      if error != 0 { return; }
    }
    error := LoadSegments(fw, ph, fwName, w.files, region, base, memSize);
  }

  /** Whatever happens, nothing past memSize changes. */
  lemma {:induction false} NothingPastTheRegion(fw: seq<Byte>, ph: seq<Phdr>, i: nat, fwName: string, files: Files,
                                                base: nat, memSize: nat, region: seq<Byte>)
    requires i <= |ph| && memSize <= |region|
    ensures LoadFrom(fw, ph, i, fwName, files, base, memSize, region).region[memSize..] == region[memSize..]
    decreases |ph| - i
  {
    if i < |ph| {
      if !Loadable(ph[i]) {
        NothingPastTheRegion(fw, ph, i + 1, fwName, files, base, memSize, region);
      } else if Fits(fw, ph[i], i, fwName, files, base, memSize) {
        var data := ReadSeg(fw, ph[i], i, fwName, files).data;
        var next := Write(region, Off(ph[i], base), Padded(data, ph[i].memsz));
        NothingPastTheRegion(fw, ph, i + 1, fwName, files, base, memSize, next);
        assert next[memSize..] == region[memSize..];
      }
    }
  }
}
