/** The ELF32 images that kmod/drm-msm/freebsd/msm_freebsd_misc.c accepts, laid out byte by byte, little
    endian: the file header, and a program header for each segment. What the loader reads from an image are
    the headers laid out there, and it accepts nothing else. */
module MdtImage {
  import opened MdtLoader

  type Short = x: int | 0 <= x < 0x1_0000
  type Long = x: int | 0 <= x < 0x1_0000_0000

  function Half(v: Short): (b: seq<Byte>)
    ensures |b| == 2
  {
    [v % 0x100, v / 0x100]
  }

  function Word(v: Long): (b: seq<Byte>)
    ensures |b| == 4
  {
    Half(v % 0x1_0000) + Half(v / 0x1_0000)
  }

  function Halves(vs: seq<Short>): (b: seq<Byte>)
    ensures |b| == 2 * |vs|
  {
    if vs == [] then [] else Half(vs[0]) + Halves(vs[1..])
  }

  function Words(vs: seq<Long>): (b: seq<Byte>)
    ensures |b| == 4 * |vs|
  {
    if vs == [] then [] else Word(vs[0]) + Words(vs[1..])
  }

  lemma {:induction false} HalfAt(b: seq<Byte>, o: nat, vs: seq<Short>, i: nat)
    requires i < |vs| && o + 2 * |vs| <= |b| && b[o..o + 2 * |vs|] == Halves(vs)
    ensures U16(b, o + 2 * i) == vs[i]
    decreases i
  {
    var w, at := Half(vs[0]), b[o..o + 2 * |vs|];
    assert at[..2] == w && at[2..] == Halves(vs[1..]);
    if i > 0 {
      assert b[o + 2..o + 2 + 2 * |vs[1..]|] == Halves(vs[1..]);
      HalfAt(b, o + 2, vs[1..], i - 1);
    } else {
      assert b[o] == at[..2][0] == w[0] && b[o + 1] == at[..2][1] == w[1];
    }
  }

  lemma {:induction false} WordAt(b: seq<Byte>, o: nat, vs: seq<Long>, i: nat)
    requires i < |vs| && o + 4 * |vs| <= |b| && b[o..o + 4 * |vs|] == Words(vs)
    ensures U32(b, o + 4 * i) == vs[i]
    decreases i
  {
    var w, at := Word(vs[0]), b[o..o + 4 * |vs|];
    assert at[..4] == w && at[4..] == Words(vs[1..]);
    if i > 0 {
      assert b[o + 4..o + 4 + 4 * |vs[1..]|] == Words(vs[1..]);
      WordAt(b, o + 4, vs[1..], i - 1);
    } else {
      assert b[o] == at[..4][0] == w[0] && b[o + 1] == at[..4][1] == w[1];
      assert b[o + 2] == at[..4][2] == w[2] && b[o + 3] == at[..4][3] == w[3];
    }
  }

  // ---------------------------------------------------------------------- the layout

  /** Elf32_Phdr. */
  datatype Entry = Entry(kind: Long, offset: Long, vaddr: Long, paddr: Long, filesz: Long, memsz: Long, flags: Long, align: Long)

  function EntryWords(e: Entry): seq<Long> { [e.kind, e.offset, e.vaddr, e.paddr, e.filesz, e.memsz, e.flags, e.align] }

  /** What the loader reads of it. */
  predicate Same(p: Phdr, e: Entry) {
    && p.kind == e.kind && p.offset == e.offset && p.paddr == e.paddr
    && p.filesz == e.filesz && p.memsz == e.memsz && p.flags == e.flags
  }

  /** The file header, but for e_phnum and what every accepted file has there: `ident` is e_ident after the
      class. */
  datatype Ehdr = Ehdr(ident: seq<Byte>, kind: Short, machine: Short, version: Long, entry: Long, phoff: Long, shoff: Long,
                       flags: Long, ehsize: Short, shentsize: Short, shnum: Short, shstrndx: Short)

  function HalvesBefore(h: Ehdr): seq<Short> { [h.kind, h.machine] }

  function HeaderWords(h: Ehdr): seq<Long> { [h.version, h.entry, h.phoff, h.shoff, h.flags] }

  function HalvesAfter(h: Ehdr, phnum: Short): seq<Short> { [h.ehsize, 32, phnum, h.shentsize, h.shnum, h.shstrndx] }

  /** The 52 bytes of Elf32_Ehdr: 0x7f E L F, ELFCLASS32, the rest of e_ident, and the fields. */
  function HeaderBytes(h: Ehdr, phnum: Short): (b: seq<Byte>)
    requires |h.ident| == 11
    ensures |b| == 52
  {
    [0x7f, 0x45, 0x4c, 0x46, 1] + h.ident + Halves(HalvesBefore(h)) + Words(HeaderWords(h)) + Halves(HalvesAfter(h, phnum))
  }

  /** The header is at the start, and the program headers one after the other from e_phoff on. Nothing is
      said of the other bytes. */
  ghost predicate IsImage(fw: seq<Byte>, h: Ehdr, es: seq<Entry>) {
    && |h.ident| == 11 && |es| < 0x1_0000
    && |fw| >= 52 && fw[..52] == HeaderBytes(h, |es|)
    && h.phoff + 32 * |es| <= |fw|
    && forall i :: 0 <= i < |es| ==> EntryIs(fw, h.phoff + 32 * i, es[i])
  }

  predicate EntryIs(fw: seq<Byte>, o: nat, e: Entry) {
    o + 32 <= |fw| && fw[o..o + 32] == Words(EntryWords(e))
  }

  // ----------------------------------------------------------------- reading it back

  lemma EntryRead(fw: seq<Byte>, o: nat, e: Entry)
    requires EntryIs(fw, o, e)
    ensures Same(PhdrAt(fw, o), e)
  {
    var ws := EntryWords(e);
    forall i | 0 <= i < 8 ensures U32(fw, o + 4 * i) == ws[i] { WordAt(fw, o, ws, i); }
    assert U32(fw, o + 4 * 0) == ws[0] && U32(fw, o + 4 * 1) == ws[1] && U32(fw, o + 4 * 3) == ws[3];
    assert U32(fw, o + 4 * 4) == ws[4] && U32(fw, o + 4 * 5) == ws[5] && U32(fw, o + 4 * 6) == ws[6];
  }

  lemma HeaderRead(fw: seq<Byte>, h: Ehdr, phnum: Short)
    requires |h.ident| == 11 && |fw| >= 52 && fw[..52] == HeaderBytes(h, phnum)
    ensures fw[..5] == [0x7f, 0x45, 0x4c, 0x46, 1]
    ensures U32(fw, 28) == h.phoff && U16(fw, 42) == 32 && U16(fw, 44) == phnum
  {
    var b := HeaderBytes(h, phnum);
    assert fw[..5] == b[..5];
    assert fw[20..40] == b[20..40] == Words(HeaderWords(h));
    assert fw[40..52] == b[40..52] == Halves(HalvesAfter(h, phnum));
    WordAt(fw, 20, HeaderWords(h), 2);
    HalfAt(fw, 40, HalvesAfter(h, phnum), 1);
    HalfAt(fw, 40, HalvesAfter(h, phnum), 2);
  }

  /** An image laid out so is accepted, and the program headers read from it are those laid out, wherever
      e_phoff puts them and whatever else the file holds. */
  lemma ReadsBack(fw: seq<Byte>, h: Ehdr, es: seq<Entry>)
    requires IsImage(fw, h, es)
    ensures HeadersOk(fw) && |Phdrs(fw)| == |es| && forall i :: 0 <= i < |es| ==> Same(Phdrs(fw)[i], es[i])
  {
    HeaderRead(fw, h, |es|);
    assert fw[0] == fw[..5][0] && fw[1] == fw[..5][1] && fw[2] == fw[..5][2] && fw[3] == fw[..5][3] && fw[4] == fw[..5][4];
    forall i | 0 <= i < |es| ensures Same(PhdrAt(fw, h.phoff + 32 * i), es[i]) {
      EntryRead(fw, h.phoff + 32 * i, es[i]);
    }
  }

  // ------------------------------------------------------------- nothing else is accepted

  lemma HalfOf(b: seq<Byte>, o: nat)
    requires o + 2 <= |b|
    ensures Half(U16(b, o)) == b[o..o + 2]
  {
  }

  lemma WordOf(b: seq<Byte>)
    requires |b| >= 4
    ensures Word(U32(b, 0)) == b[..4]
  {
    var low, high := U16(b, 0), U16(b, 2);
    assert U32(b, 0) % 0x1_0000 == low && U32(b, 0) / 0x1_0000 == high;
    HalfOf(b, 0);
    HalfOf(b, 2);
    assert b[..4] == b[0..2] + b[2..4];
  }

  lemma {:induction false} AsHalves(b: seq<Byte>) returns (vs: seq<Short>)
    requires |b| % 2 == 0
    ensures Halves(vs) == b
  {
    if b == [] {
      vs := [];
    } else {
      var rest := AsHalves(b[2..]);
      HalfOf(b, 0);
      vs := [U16(b, 0)] + rest;
      assert vs[1..] == rest && b == b[0..2] + b[2..];
    }
  }

  lemma {:induction false} AsWords(b: seq<Byte>) returns (vs: seq<Long>)
    requires |b| % 4 == 0
    ensures Words(vs) == b
  {
    if b == [] {
      vs := [];
    } else {
      var rest := AsWords(b[4..]);
      WordOf(b);
      vs := [U32(b, 0)] + rest;
      assert vs[1..] == rest && b == b[..4] + b[4..];
    }
  }

  lemma AsEntry(fw: seq<Byte>, o: nat) returns (e: Entry)
    requires o + 32 <= |fw|
    ensures EntryIs(fw, o, e)
  {
    var ws := AsWords(fw[o..o + 32]);
    e := Entry(ws[0], ws[1], ws[2], ws[3], ws[4], ws[5], ws[6], ws[7]);
    assert EntryWords(e) == ws;
  }

  lemma {:induction false} AsEntries(fw: seq<Byte>, o: nat, n: nat) returns (es: seq<Entry>)
    requires o + 32 * n <= |fw|
    ensures |es| == n && forall i :: 0 <= i < n ==> EntryIs(fw, o + 32 * i, es[i])
  {
    if n == 0 {
      es := [];
    } else {
      var front := AsEntries(fw, o, n - 1);
      var e := AsEntry(fw, o + 32 * (n - 1));
      es := front + [e];
    }
  }

  lemma AsHeader(fw: seq<Byte>) returns (h: Ehdr)
    requires HeadersOk(fw)
    ensures |h.ident| == 11 && fw[..52] == HeaderBytes(h, U16(fw, 44))
  {
    var phnum := U16(fw, 44);
    var a := AsHalves(fw[16..20]);
    var b := AsWords(fw[20..40]);
    var c := AsHalves(fw[40..52]);
    HalfAt(fw, 40, c, 1);
    HalfAt(fw, 40, c, 2);
    h := Ehdr(fw[5..16], a[0], a[1], b[0], b[1], b[2], b[3], b[4], c[0], c[3], c[4], c[5]);
    assert a == HalvesBefore(h) && b == HeaderWords(h) && c == HalvesAfter(h, phnum);
    assert fw[..52] == fw[..5] + fw[5..16] + fw[16..20] + fw[20..40] + fw[40..52];
    assert fw[..5] == [0x7f, 0x45, 0x4c, 0x46, 1];
  }

  /** Exactly the files laid out so are accepted. */
  lemma AcceptedIff(fw: seq<Byte>)
    ensures HeadersOk(fw) <==> exists h, es :: IsImage(fw, h, es)
  {
    if HeadersOk(fw) {
      var h := AsHeader(fw);
      HeaderRead(fw, h, U16(fw, 44));
      var es := AsEntries(fw, h.phoff, U16(fw, 44));
      assert IsImage(fw, h, es);
    }
    if h, es :| IsImage(fw, h, es) { ReadsBack(fw, h, es); }
  }

  // ----------------------------------------------------------------------- an encoder

  function Table(es: seq<Entry>): (b: seq<Byte>)
    ensures |b| == 32 * |es|
  {
    if es == [] then [] else Words(EntryWords(es[0])) + Table(es[1..])
  }

  lemma {:induction false} TableIs(fw: seq<Byte>, o: nat, es: seq<Entry>)
    requires o + 32 * |es| <= |fw| && fw[o..o + 32 * |es|] == Table(es)
    ensures forall i :: 0 <= i < |es| ==> EntryIs(fw, o + 32 * i, es[i])
    decreases |es|
  {
    if es != [] {
      var t := fw[o..o + 32 * |es|];
      assert t[..32] == Words(EntryWords(es[0])) && t[32..] == Table(es[1..]);
      assert fw[o..o + 32] == t[..32];
      assert fw[o + 32..o + 32 + 32 * |es[1..]|] == t[32..];
      TableIs(fw, o + 32, es[1..]);
      forall i | 0 < i < |es| ensures EntryIs(fw, o + 32 * i, es[i]) {
        assert EntryIs(fw, o + 32 + 32 * (i - 1), es[1..][i - 1]);
      }
    }
  }

  /** Every table of program headers has images: its headers come back from the file made of a header, any
      gap, the table, and anything after it. */
  lemma EncodedReadsBack(h: Ehdr, gap: seq<Byte>, es: seq<Entry>, rest: seq<Byte>)
    requires |h.ident| == 11 && |es| < 0x1_0000 && h.phoff == 52 + |gap|
    ensures var fw := HeaderBytes(h, |es|) + gap + Table(es) + rest;
      HeadersOk(fw) && |Phdrs(fw)| == |es| && forall i :: 0 <= i < |es| ==> Same(Phdrs(fw)[i], es[i])
  {
    var header, table := HeaderBytes(h, |es|), Table(es);
    var fw := header + gap + table + rest;
    assert fw == header + (gap + table + rest) == (header + gap) + table + rest;
    assert fw[..52] == header;
    assert |header + gap| == h.phoff && fw[h.phoff..h.phoff + 32 * |es|] == table;
    TableIs(fw, h.phoff, es);
    ReadsBack(fw, h, es);
  }
}
