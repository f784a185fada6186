/** The UTF-8 decoder of desktop/de/ctext/ctext.c, against RFC 3629. */
module Utf8 {

  type Byte = x: int | 0 <= x < 256
  type Bytes = seq<Byte>

  datatype Decoded = Decoded(cp: nat, adv: nat)

  const REPLACEMENT: nat := 0xFFFD

  /** The six bits of a continuation byte. */
  function Six(b: Byte): (v: nat)
    ensures v < 0x40
  {
    b % 0x40
  }

  /** utf8_next at s[i]: the lead byte decides, and what follows is not looked at. */
  function Next(s: Bytes, i: nat): (d: Decoded)
    requires i < |s|
    ensures d.adv > 0 && i + d.adv <= |s|
  {
    var c: int := s[i];
    if c < 0x80 then Decoded(c, 1)
    else if c / 0x20 == 0x6 && i + 1 < |s| then
      Decoded(c % 0x20 * 0x40 + Six(s[i + 1]), 2)
    else if c / 0x10 == 0xE && i + 2 < |s| then
      Decoded(c % 0x10 * 0x1000 + Six(s[i + 1]) * 0x40 + Six(s[i + 2]), 3)
    else if c / 0x8 == 0x1E && i + 3 < |s| then
      Decoded(c % 0x8 * 0x4_0000 + Six(s[i + 1]) * 0x1000 + Six(s[i + 2]) * 0x40 + Six(s[i + 3]), 4)
    else Decoded(REPLACEMENT, 1)
  }

  // ------------------------------------------------------- section 3 of RFC 3629: encoding

  predicate Scalar(cp: nat) { cp < 0x11_0000 && !(0xD800 <= cp < 0xE000) }

  function Encode(cp: nat): (b: Bytes)
    requires Scalar(cp)
    ensures 1 <= |b| <= 4
  {
    if cp < 0x80 then [cp]
    else if cp < 0x800 then [0xC0 + cp / 0x40, 0x80 + cp % 0x40]
    else if cp < 0x1_0000 then [0xE0 + cp / 0x1000, 0x80 + cp / 0x40 % 0x40, 0x80 + cp % 0x40]
    else [0xF0 + cp / 0x4_0000, 0x80 + cp / 0x1000 % 0x40, 0x80 + cp / 0x40 % 0x40, 0x80 + cp % 0x40]
  }

  function EncodeAll(cps: seq<nat>): Bytes
    requires forall c :: c in cps ==> Scalar(c)
  {
    if cps == [] then [] else Encode(cps[0]) + EncodeAll(cps[1..])
  }

  /** The code points utf8_next finds from s[i] on. */
  function DecodeAll(s: Bytes, i: nat): seq<nat>
    requires i <= |s|
    decreases |s| - i
  {
    if i == |s| then [] else [Next(s, i).cp] + DecodeAll(s, i + Next(s, i).adv)
  }

  lemma TwoBack(cp: nat)
    requires 0x80 <= cp < 0x800
    ensures var b := Encode(cp);
      b[0] / 0x20 == 0x6 && b[0] as int % 0x20 * 0x40 + Six(b[1]) == cp
  {
  }

  lemma ThreeBack(cp: nat)
    requires 0x800 <= cp < 0x1_0000 && Scalar(cp)
    ensures var b := Encode(cp);
      b[0] / 0x10 == 0xE && b[0] as int % 0x10 * 0x1000 + Six(b[1]) * 0x40 + Six(b[2]) == cp
  {
    var q := cp / 0x40;
    assert cp == q * 0x40 + cp % 0x40 && q == q / 0x40 * 0x40 + q % 0x40 && q / 0x40 == cp / 0x1000;
  }

  lemma SumOfDigits(n: nat)
    ensures n == n / 0x4_0000 * 0x4_0000 + n / 0x1000 % 0x40 * 0x1000 + n / 0x40 % 0x40 * 0x40 + n % 0x40
  {
    var q := n / 0x40;
    var p := q / 0x40;
    assert p == n / 0x1000 && p / 0x40 == n / 0x4_0000;
  }

  lemma SixBack(v: nat)
    requires v < 0x40
    ensures Six(0x80 + v) == v
  {
  }

  lemma FourBack(cp: nat)
    requires 0x1_0000 <= cp < 0x11_0000
    ensures var b := Encode(cp);
      b[0] / 0x8 == 0x1E && b[0] as int % 0x8 * 0x4_0000 + Six(b[1]) * 0x1000 + Six(b[2]) * 0x40 + Six(b[3]) == cp
  {
    SumOfDigits(cp);
    SixBack(cp / 0x1000 % 0x40);
    SixBack(cp / 0x40 % 0x40);
    SixBack(cp % 0x40);
  }

  lemma ReadsBytes(s: Bytes, i: nat, cp: nat)
    requires Scalar(cp) && i + |Encode(cp)| <= |s| && s[i..i + |Encode(cp)|] == Encode(cp)
    ensures Next(s, i) == Decoded(cp, |Encode(cp)|)
  {
    var b := Encode(cp);
    Bytewise(s, i, b);
    if |b| == 2 { TwoBack(cp); } else if |b| == 3 { ThreeBack(cp); } else if |b| == 4 { FourBack(cp); }
  }

  /** An encoded scalar value is read back exactly, wherever it stands. */
  lemma ReadsEncoded(pre: Bytes, cp: nat, post: Bytes)
    requires Scalar(cp)
    ensures Next(pre + Encode(cp) + post, |pre|) == Decoded(cp, |Encode(cp)|)
  {
    var s := pre + Encode(cp) + post;
    assert s[|pre|..|pre| + |Encode(cp)|] == Encode(cp);
    ReadsBytes(s, |pre|, cp);
  }

  lemma DecodeStep(s: Bytes, i: nat, d: Decoded)
    requires i < |s| && Next(s, i) == d
    ensures i + d.adv <= |s| && DecodeAll(s, i) == [d.cp] + DecodeAll(s, i + d.adv)
  {
  }

  lemma EncodeFront(pre: Bytes, cps: seq<nat>)
    requires cps != [] && forall c :: c in cps ==> Scalar(c)
    ensures pre + EncodeAll(cps) == pre + Encode(cps[0]) + EncodeAll(cps[1..])
  {
  }

  lemma OneMoreDecoded(pre: Bytes, cp: nat, post: Bytes, rest: seq<nat>)
    requires Scalar(cp) && DecodeAll(pre + Encode(cp) + post, |pre + Encode(cp)|) == rest
    ensures DecodeAll(pre + Encode(cp) + post, |pre|) == [cp] + rest
  {
    ReadsEncoded(pre, cp, post);
    DecodeStep(pre + Encode(cp) + post, |pre|, Decoded(cp, |Encode(cp)|));
  }

  /** Well-formed text round trips. */
  lemma {:induction false} RoundTrip(pre: Bytes, cps: seq<nat>)
    requires forall c :: c in cps ==> Scalar(c)
    ensures DecodeAll(pre + EncodeAll(cps), |pre|) == cps
    decreases |cps|
  {
    if cps != [] {
      var rest := cps[1..];
      EncodeFront(pre, cps);
      RoundTrip(pre + Encode(cps[0]), rest);
      OneMoreDecoded(pre, cps[0], EncodeAll(rest), rest);
      assert cps == [cps[0]] + rest;
    }
  }

  // -------------------------------------------- section 4 of RFC 3629: well-formed sequences

  predicate Tail(b: Byte) { 0x80 <= b < 0xC0 }

  /** Whether a well-formed sequence of n bytes stands at s[i], by the ranges of the ABNF. */
  predicate WellFormed(s: Bytes, i: nat, n: nat) {
    && 1 <= n <= 4 && i + n <= |s|
    && match n
       case 1 => s[i] < 0x80
       case 2 => 0xC2 <= s[i] <= 0xDF && Tail(s[i + 1])
       case 3 =>
         && Tail(s[i + 2])
         && ( (s[i] == 0xE0 && 0xA0 <= s[i + 1] <= 0xBF)
           || (0xE1 <= s[i] <= 0xEC && Tail(s[i + 1]))
           || (s[i] == 0xED && 0x80 <= s[i + 1] <= 0x9F)
           || (0xEE <= s[i] <= 0xEF && Tail(s[i + 1])))
       case _ =>
         && Tail(s[i + 2]) && Tail(s[i + 3])
         && ( (s[i] == 0xF0 && 0x90 <= s[i + 1] <= 0xBF)
           || (0xF1 <= s[i] <= 0xF3 && Tail(s[i + 1]))
           || (s[i] == 0xF4 && 0x80 <= s[i + 1] <= 0x8F))
  }

  lemma TwoBytes(a: Byte, b: Byte)
    requires 0xC2 <= a <= 0xDF && Tail(b)
    ensures var cp: int := a as int % 0x20 * 0x40 + Six(b);
      Scalar(cp) && Encode(cp) == [a, b]
  {
  }

  lemma ThreeBytes(a: Byte, b: Byte, c: Byte)
    requires Tail(c) && 0xE0 <= a <= 0xEF && Tail(b)
    requires (a == 0xE0 ==> b >= 0xA0) && (a == 0xED ==> b <= 0x9F)
    ensures var cp: int := a as int % 0x10 * 0x1000 + Six(b) * 0x40 + Six(c);
      Scalar(cp) && Encode(cp) == [a, b, c]
  {
    var cp: int := a as int % 0x10 * 0x1000 + Six(b) * 0x40 + Six(c);
    assert 0x800 <= cp < 0x1_0000;
    assert cp / 0x40 == a as int % 0x10 * 0x40 + Six(b);
  }

  /** The base-64 digits of a number. */
  lemma Digits(x: nat, b: nat, c: nat, d: nat)
    requires b < 0x40 && c < 0x40 && d < 0x40
    ensures var n := x * 0x4_0000 + b * 0x1000 + c * 0x40 + d;
      n / 0x4_0000 == x && n / 0x1000 % 0x40 == b && n / 0x40 % 0x40 == c && n % 0x40 == d
  {
    var n := x * 0x4_0000 + b * 0x1000 + c * 0x40 + d;
    assert n / 0x40 == x * 0x1000 + b * 0x40 + c;
    assert n / 0x1000 == x * 0x40 + b;
  }

  lemma FourBytes(a: Byte, b: Byte, c: Byte, d: Byte)
    requires Tail(c) && Tail(d) && 0xF0 <= a <= 0xF4 && Tail(b)
    requires (a == 0xF0 ==> b >= 0x90) && (a == 0xF4 ==> b <= 0x8F)
    ensures var cp: int := a as int % 0x8 * 0x4_0000 + Six(b) * 0x1000 + Six(c) * 0x40 + Six(d);
      Scalar(cp) && Encode(cp) == [a, b, c, d]
  {
    Digits(a as int % 0x8, Six(b), Six(c), Six(d));
    var cp: int := a as int % 0x8 * 0x4_0000 + Six(b) * 0x1000 + Six(c) * 0x40 + Six(d);
    assert 0x1_0000 <= cp < 0x11_0000;
  }

  lemma Bytewise(s: Bytes, i: nat, b: Bytes)
    requires i + |b| <= |s| && s[i..i + |b|] == b
    ensures forall k :: 0 <= k < |b| ==> s[i + k] == b[k]
  {
    assert forall k :: 0 <= k < |b| ==> s[i..i + |b|][k] == b[k];
  }

  lemma WellFormedEncodes(s: Bytes, i: nat)
    requires i < |s| && WellFormed(s, i, Next(s, i).adv)
    ensures var d := Next(s, i); Scalar(d.cp) && s[i..i + d.adv] == Encode(d.cp)
  {
    var d := Next(s, i);
    if d.adv == 2 {
      TwoBytes(s[i], s[i + 1]);
    } else if d.adv == 3 {
      ThreeBytes(s[i], s[i + 1], s[i + 2]);
    } else if d.adv == 4 {
      FourBytes(s[i], s[i + 1], s[i + 2], s[i + 3]);
    }
  }

  /** A sequence is well-formed exactly when it encodes the scalar value utf8_next reads there. */
  lemma WellFormedIff(s: Bytes, i: nat)
    requires i < |s|
    ensures var d := Next(s, i);
      WellFormed(s, i, d.adv) <==> Scalar(d.cp) && s[i..i + d.adv] == Encode(d.cp)
  {
    var d := Next(s, i);
    if WellFormed(s, i, d.adv) { WellFormedEncodes(s, i); }
    if Scalar(d.cp) && s[i..i + d.adv] == Encode(d.cp) {
      EncodedIsWellFormed(s, i, d.adv, d.cp);
    }
  }

  lemma EncodedIsWellFormed(s: Bytes, i: nat, n: nat, cp: nat)
    requires Scalar(cp) && i + n <= |s| && s[i..i + n] == Encode(cp)
    ensures WellFormed(s, i, n)
  {
    Bytewise(s, i, Encode(cp));
    EncodingWellFormed(s, i, cp);
  }

  lemma ThreeRanges(cp: nat)
    requires 0x800 <= cp < 0x1_0000 && Scalar(cp)
    ensures var b := Encode(cp);
      && 0xE0 <= b[0] <= 0xEF && Tail(b[1]) && Tail(b[2])
      && (b[0] == 0xE0 ==> b[1] >= 0xA0) && (b[0] == 0xED ==> b[1] <= 0x9F)
  {
  }

  lemma FourRanges(cp: nat)
    requires 0x1_0000 <= cp < 0x11_0000
    ensures var b := Encode(cp);
      && 0xF0 <= b[0] <= 0xF4 && Tail(b[1]) && Tail(b[2]) && Tail(b[3])
      && (b[0] == 0xF0 ==> b[1] >= 0x90) && (b[0] == 0xF4 ==> b[1] <= 0x8F)
  {
    SumOfDigits(cp);
  }

  lemma EncodingWellFormed(s: Bytes, i: nat, cp: nat)
    requires Scalar(cp) && i + |Encode(cp)| <= |s|
    requires forall k :: 0 <= k < |Encode(cp)| ==> s[i + k] == Encode(cp)[k]
    ensures WellFormed(s, i, |Encode(cp)|)
  {
    var b := Encode(cp);
    assert s[i + 0] == b[0];
    if |b| == 2 {
      assert s[i + 1] == b[1];
    } else if |b| == 3 {
      ThreeRanges(cp);
      assert s[i + 1] == b[1] && s[i + 2] == b[2];
    } else if |b| == 4 {
      FourRanges(cp);
      assert s[i + 1] == b[1] && s[i + 2] == b[2] && s[i + 3] == b[3];
    }
  }

  // --------------------------------------------------------------------- malformed text

  /** An encoded scalar value stands at s[i]. */
  ghost predicate Reads(s: Bytes, i: nat, cp: nat)
    requires i < |s|
  {
    Scalar(cp) && i + |Encode(cp)| <= |s| && s[i..i + |Encode(cp)|] == Encode(cp)
  }

  /** What the decoder's own comment promises: the code point that stands there, and for a malformed
      sequence U+FFFD and one byte. */
  ghost predicate Promised(s: Bytes, i: nat, d: Decoded)
    requires i < |s|
  {
    if exists cp :: Reads(s, i, cp) then Reads(s, i, d.cp) && d.adv == |Encode(d.cp)| else d == Decoded(REPLACEMENT, 1)
  }

  lemma AsciiReads(s: Bytes, i: nat)
    requires i < |s| && s[i] < 0x80
    ensures Reads(s, i, s[i])
  {
    assert Encode(s[i]) == [s[i]] == s[i..i + 1];
  }

  /** How many bytes a lead byte announces; 1 when it announces none that the decoder knows. */
  function Announced(lead: Byte): (n: nat)
    ensures 1 <= n <= 4
  {
    if lead < 0x80 then 1
    else if 0xC0 <= lead < 0xE0 then 2
    else if 0xE0 <= lead < 0xF0 then 3
    else if 0xF0 <= lead < 0xF8 then 4
    else 1
  }

  lemma AdvanceIs(s: Bytes, i: nat)
    requires i < |s|
    ensures var n := Announced(s[i]); Next(s, i).adv == if i + n <= |s| then n else 1
  {
  }

  lemma KeepsItsPromise(s: Bytes, i: nat)
    requires i < |s|
    ensures Promised(s, i, Next(s, i)) <==> Next(s, i).adv == 1 || WellFormed(s, i, Next(s, i).adv)
  {
    WellFormedIff(s, i);
    if s[i] < 0x80 { AsciiReads(s, i); }
    var d := Next(s, i);
    assert Reads(s, i, d.cp) && d.adv == |Encode(d.cp)| ==> WellFormed(s, i, d.adv);
    if cp :| Reads(s, i, cp) {
      ReadsBytes(s, i, cp);
    }
  }

  /** The decoder keeps that promise exactly when the lead byte announces nothing more, or the text ends
      before what it announces, or what it announces is well-formed: bytes that are announced and there
      are taken without a look. */
  lemma KeepsItsPromiseIff(s: Bytes, i: nat)
    requires i < |s|
    ensures var n := Announced(s[i]);
      Promised(s, i, Next(s, i)) <==> n == 1 || i + n > |s| || WellFormed(s, i, n)
  {
    KeepsItsPromise(s, i);
    AdvanceIs(s, i);
  }

  /** It does not in general: after C3, a parenthesis is taken for a continuation byte and swallowed. */
  lemma SwallowsTheNextByte()
    ensures Next([0xC3, 0x28], 0) == Decoded(0xE8, 2) && !Promised([0xC3, 0x28], 0, Decoded(0xE8, 2))
    ensures DecodeAll([0xC3, 0x28], 0) == [0xE8]
  {
    var s: Bytes := [0xC3, 0x28];
    KeepsItsPromiseIff(s, 0);
    assert DecodeAll(s, 2) == [];
  }
}
