/** UTF-16 code units (from \uXXXX escapes) to UTF-8 bytes: the surrogate
    range predicates, the one-unit encoder u16tou8 and the surrogate-pair
    encoder u16stou8 of jsonny.c, together with an independent reference for
    both, the UTF-8 character syntax of RFC 3629 section 4 and the pair
    decoding of RFC 2781 section 2.2. */
module Utf {

  const HSG_MIN: bv16 := 0xD800
  const HSG_MAX: bv16 := 0xDBFF
  const LSG_MIN: bv16 := 0xDC00
  const LSG_MAX: bv16 := 0xDFFF

  /** issurrogate: a unit in D800..DFFF, which cannot stand for itself. */
  predicate IsSurrogate(c: bv16) { HSG_MIN <= c <= LSG_MAX }

  /** ishsurrogate: the first unit of a pair. */
  predicate IsHighSurrogate(c: bv16) { HSG_MIN <= c <= HSG_MAX }

  /** islsurrogate: the second unit of a pair. */
  predicate IsLowSurrogate(c: bv16) { LSG_MIN <= c <= LSG_MAX }

  lemma SurrogateRanges(c: bv16)
    ensures IsSurrogate(c) <==> IsHighSurrogate(c) || IsLowSurrogate(c)
    ensures !(IsHighSurrogate(c) && IsLowSurrogate(c))
  {
  }

  // ---------------------------------------------------------------------
  // Reference: RFC 3629 section 4 (UTF-8 syntax) and RFC 2781 section 2

  /** UTF8-tail = %x80-BF */
  predicate IsTail(b: bv8) { 0x80 <= b <= 0xBF }

  /** UTF8-2 of RFC 3629 section 4. */
  predicate IsUtf8Two(b0: bv8, b1: bv8) { 0xC2 <= b0 <= 0xDF && IsTail(b1) }

  /** UTF8-3 of RFC 3629 section 4. */
  predicate IsUtf8Three(b0: bv8, b1: bv8, b2: bv8) {
    IsTail(b2) &&
    ((b0 == 0xE0 && 0xA0 <= b1 <= 0xBF) ||
     (0xE1 <= b0 <= 0xEC && IsTail(b1)) ||
     (b0 == 0xED && 0x80 <= b1 <= 0x9F) ||
     (0xEE <= b0 <= 0xEF && IsTail(b1)))
  }

  /** UTF8-4 of RFC 3629 section 4. */
  predicate IsUtf8Four(b0: bv8, b1: bv8, b2: bv8, b3: bv8) {
    IsTail(b2) && IsTail(b3) &&
    ((b0 == 0xF0 && 0x90 <= b1 <= 0xBF) ||
     (0xF1 <= b0 <= 0xF3 && IsTail(b1)) ||
     (b0 == 0xF4 && 0x80 <= b1 <= 0x8F))
  }

  /** The UTF8-char rule of RFC 3629 section 4: exactly one well-formed
      character (no overlong forms, no surrogates, nothing above U+10FFFF). */
  predicate IsUtf8Char(s: seq<bv8>) {
    if |s| == 1 then s[0] <= 0x7F
    else if |s| == 2 then IsUtf8Two(s[0], s[1])
    else if |s| == 3 then IsUtf8Three(s[0], s[1], s[2])
    else if |s| == 4 then IsUtf8Four(s[0], s[1], s[2], s[3])
    else false
  }

  /** The result of decoding one UTF-8 character. */
  datatype Decoded = Scalar(cp: bv32) | Malformed

  /** Decodes one character: the x bits of the table of RFC 3629 section 3,
      or Malformed when the bytes are not one UTF8-char. */
  function Utf8Decode(s: seq<bv8>): Decoded {
    if !IsUtf8Char(s) then Malformed
    else if |s| == 1 then Scalar(s[0] as bv32)
    else if |s| == 2 then Scalar(Bits2(s[0], s[1]))
    else if |s| == 3 then Scalar(Bits3(s[0], s[1], s[2]))
    else Scalar(Bits4(s[0], s[1], s[2], s[3]))
  }

  function Bits2(b0: bv8, b1: bv8): bv32 {
    ((b0 as bv32 & 0x1F) << 6) | (b1 as bv32 & 0x3F)
  }

  function Bits3(b0: bv8, b1: bv8, b2: bv8): bv32 {
    ((b0 as bv32 & 0x0F) << 12) | ((b1 as bv32 & 0x3F) << 6) | (b2 as bv32 & 0x3F)
  }

  function Bits4(b0: bv8, b1: bv8, b2: bv8, b3: bv8): bv32 {
    ((b0 as bv32 & 0x07) << 18) | ((b1 as bv32 & 0x3F) << 12) |
    ((b2 as bv32 & 0x3F) << 6) | (b3 as bv32 & 0x3F)
  }

  /** The code point a high/low surrogate pair stands for (RFC 2781
      section 2.2). */
  function Combine(h: bv16, l: bv16): (cp: bv32)
    requires IsHighSurrogate(h) && IsLowSurrogate(l)
    ensures 0x10000 <= cp <= 0x10FFFF
  {
    0x10000 + (((h as bv32) - 0xD800) << 10) + ((l as bv32) - 0xDC00)
  }

  /** The pair a supplementary code point is written as (RFC 2781
      section 2.1). */
  function Split(cp: bv32): (p: (bv16, bv16))
    requires 0x10000 <= cp <= 0x10FFFF
    ensures IsHighSurrogate(p.0) && IsLowSurrogate(p.1)
  {
    (((0xD800 + ((cp - 0x10000) >> 10)) as bv16), ((0xDC00 + ((cp - 0x10000) & 0x3FF)) as bv16))
  }

  /** Combine and Split are inverse bijections between surrogate pairs and
      the supplementary planes. */
  lemma CombineSplit(h: bv16, l: bv16, cp: bv32)
    ensures IsHighSurrogate(h) && IsLowSurrogate(l) ==> Split(Combine(h, l)) == (h, l)
    ensures 0x10000 <= cp <= 0x10FFFF ==> Combine(Split(cp).0, Split(cp).1) == cp
  {
  }

  // ---------------------------------------------------------------------
  // The encoders of jsonny.c

  /** u16tou8: a unit outside the surrogate range becomes 1, 2 or 3
      bytes (U16ToU8Encodes says which); a surrogate gives no bytes. */
  function U16ToU8(c: bv16): (r: seq<bv8>)
    ensures IsSurrogate(c) <==> r == []
    ensures |r| == if c < 0x80 then 1 else if c < 0x800 then 2 else if !IsSurrogate(c) then 3 else 0
  {
    if c < 0x0080 then
      [c as bv8]
    else if c < 0x0800 then
      [(0xC0 | ((c >> 6) & 0x1F)) as bv8, (0x80 | (c & 0x3F)) as bv8]
    else if !IsSurrogate(c) then
      [(0xE0 | ((c >> 12) & 0xF)) as bv8, (0x80 | ((c >> 6) & 0x3F)) as bv8, (0x80 | (c & 0x3F)) as bv8]
    else
      []
  }

  /** The bytes u16tou8 produces for a unit outside the surrogate range
      are one well-formed UTF-8 character, and it is that unit. */
  lemma U16ToU8Encodes(c: bv16)
    ensures !IsSurrogate(c) ==> IsUtf8Char(U16ToU8(c)) && Utf8Decode(U16ToU8(c)) == Scalar(c as bv32)
  {
    U16ToU8Decodes(c);
  }

  /** The bytes u16tou8 produces for each range of units, decoded. */
  lemma U16ToU8Decodes(c: bv16)
    ensures 0x80 <= c < 0x800 ==>
      Utf8Decode([(0xC0 | ((c >> 6) & 0x1F)) as bv8, (0x80 | (c & 0x3F)) as bv8]) == Scalar(c as bv32)
    ensures 0x800 <= c && !IsSurrogate(c) ==>
      Utf8Decode([(0xE0 | ((c >> 12) & 0xF)) as bv8, (0x80 | ((c >> 6) & 0x3F)) as bv8, (0x80 | (c & 0x3F)) as bv8])
        == Scalar(c as bv32)
  {
    if 0x80 <= c < 0x800 {
      var b0, b1 := (0xC0 | ((c >> 6) & 0x1F)) as bv8, (0x80 | (c & 0x3F)) as bv8;
      TwoByteBits(c, b0, b1);
      assert IsUtf8Char([b0, b1]);
    }
    if 0x800 <= c && !IsSurrogate(c) {
      var b0, b1, b2 := (0xE0 | ((c >> 12) & 0xF)) as bv8, (0x80 | ((c >> 6) & 0x3F)) as bv8, (0x80 | (c & 0x3F)) as bv8;
      ThreeByteBits(c, b0, b1, b2);
      assert IsUtf8Char([b0, b1, b2]);
    }
  }

  lemma TwoByteBits(c: bv16, b0: bv8, b1: bv8)
    requires 0x80 <= c < 0x800
    requires b0 == (0xC0 | ((c >> 6) & 0x1F)) as bv8 && b1 == (0x80 | (c & 0x3F)) as bv8
    ensures IsUtf8Two(b0, b1) && Bits2(b0, b1) == c as bv32
  {
  }

  lemma ThreeByteBits(c: bv16, b0: bv8, b1: bv8, b2: bv8)
    requires 0x800 <= c && !IsSurrogate(c)
    requires b0 == (0xE0 | ((c >> 12) & 0xF)) as bv8
    requires b1 == (0x80 | ((c >> 6) & 0x3F)) as bv8 && b2 == (0x80 | (c & 0x3F)) as bv8
    ensures IsUtf8Three(b0, b1, b2) && Bits3(b0, b1, b2) == c as bv32
  {
  }

  /** u16stou8 as written: the lead byte keeps only two bits of the plane
      number (mask 0x3), so a pair is encoded correctly exactly when it
      stands for a code point below U+100000. */
  function U16sToU8(h: bv16, l: bv16): (r: seq<bv8>)
    ensures !(IsHighSurrogate(h) && IsLowSurrogate(l)) <==> r == []
    ensures IsHighSurrogate(h) && IsLowSurrogate(l) ==> |r| == 4
  {
    if IsHighSurrogate(h) && IsLowSurrogate(l) then
      var hs := h - HSG_MIN + 0x40;
      var ls := l - LSG_MIN;
      [(0xF0 | ((hs >> 8) & 0x3)) as bv8,
       (0x80 | ((hs >> 2) & 0x3F)) as bv8,
       (0x80 | (((hs << 4) | ((ls >> 6) & 0xF)) & 0x3F)) as bv8,
       (0x80 | (ls & 0x3F)) as bv8]
    else
      []
  }

  /** u16stou8 with the lead-byte mask widened to the three bits UTF-8
      gives it (0x7): every pair is encoded as its code point. */
  function U16sToU8Fixed(h: bv16, l: bv16): (r: seq<bv8>)
    ensures !(IsHighSurrogate(h) && IsLowSurrogate(l)) <==> r == []
    ensures IsHighSurrogate(h) && IsLowSurrogate(l) ==> |r| == 4
  {
    if IsHighSurrogate(h) && IsLowSurrogate(l) then
      var hs := h - HSG_MIN + 0x40;
      var ls := l - LSG_MIN;
      [(0xF0 | ((hs >> 8) & 0x7)) as bv8,
       (0x80 | ((hs >> 2) & 0x3F)) as bv8,
       (0x80 | (((hs << 4) | ((ls >> 6) & 0xF)) & 0x3F)) as bv8,
       (0x80 | (ls & 0x3F)) as bv8]
    else
      []
  }

  /** As written, u16stou8 encodes a pair as the code point it stands for
      exactly when that code point is below U+100000. */
  lemma U16sToU8Encodes(h: bv16, l: bv16)
    requires IsHighSurrogate(h) && IsLowSurrogate(l)
    ensures Utf8Decode(U16sToU8(h, l)) == Scalar(Combine(h, l)) <==> Combine(h, l) < 0x100000
  {
    var r := U16sToU8(h, l);
    WrittenBytes(h, l);
    DecodeFour(r[0], r[1], r[2], r[3], Combine(h, l));
    assert r == [r[0], r[1], r[2], r[3]];
  }

  lemma WrittenBytes(h: bv16, l: bv16)
    requires IsHighSurrogate(h) && IsLowSurrogate(l)
    ensures var r := U16sToU8(h, l);
      IsUtf8Four(r[0], r[1], r[2], r[3]) && Bits4(r[0], r[1], r[2], r[3]) == Combine(h, l) <==> Combine(h, l) < 0x100000
  {
    var r := U16sToU8(h, l);
    var hs, ls := h - HSG_MIN + 0x40, l - LSG_MIN;
    PairBits(h, l, hs, ls, r[0], r[1], r[2], r[3], 0x3);
  }

  lemma FixedBytes(h: bv16, l: bv16)
    requires IsHighSurrogate(h) && IsLowSurrogate(l)
    ensures var r := U16sToU8Fixed(h, l);
      IsUtf8Four(r[0], r[1], r[2], r[3]) && Bits4(r[0], r[1], r[2], r[3]) == Combine(h, l)
  {
    var r := U16sToU8Fixed(h, l);
    var hs, ls := h - HSG_MIN + 0x40, l - LSG_MIN;
    PairBits(h, l, hs, ls, r[0], r[1], r[2], r[3], 0x7);
  }

  /** With the mask widened, every pair is encoded as one well-formed
      4-byte UTF-8 character standing for the pair's code point. */
  lemma U16sToU8FixedEncodes(h: bv16, l: bv16)
    requires IsHighSurrogate(h) && IsLowSurrogate(l)
    ensures IsUtf8Char(U16sToU8Fixed(h, l)) && Utf8Decode(U16sToU8Fixed(h, l)) == Scalar(Combine(h, l))
  {
    var r := U16sToU8Fixed(h, l);
    FixedBytes(h, l);
    DecodeFour(r[0], r[1], r[2], r[3], Combine(h, l));
    assert r == [r[0], r[1], r[2], r[3]];
  }

  /** Four bytes decode to `cp` exactly when they are a UTF8-4 whose x bits
      are `cp`. */
  lemma DecodeFour(b0: bv8, b1: bv8, b2: bv8, b3: bv8, cp: bv32)
    ensures IsUtf8Char([b0, b1, b2, b3]) == IsUtf8Four(b0, b1, b2, b3)
    ensures Utf8Decode([b0, b1, b2, b3]) == Scalar(cp) <==> IsUtf8Four(b0, b1, b2, b3) && Bits4(b0, b1, b2, b3) == cp
  {
  }

  /** The four bytes u16stou8 builds with lead-byte mask `m`: with the
      three bits UTF-8 gives the lead byte they are always the pair's code
      point; with two, exactly below U+100000. */
  lemma PairBits(h: bv16, l: bv16, hs: bv16, ls: bv16, b0: bv8, b1: bv8, b2: bv8, b3: bv8, m: bv16)
    requires IsHighSurrogate(h) && IsLowSurrogate(l) && (m == 0x3 || m == 0x7)
    requires hs == h - HSG_MIN + 0x40 && ls == l - LSG_MIN
    requires b0 == (0xF0 | ((hs >> 8) & m)) as bv8 && b1 == (0x80 | ((hs >> 2) & 0x3F)) as bv8
    requires b2 == (0x80 | (((hs << 4) | ((ls >> 6) & 0xF)) & 0x3F)) as bv8 && b3 == (0x80 | (ls & 0x3F)) as bv8
    ensures m == 0x7 ==> IsUtf8Four(b0, b1, b2, b3) && Bits4(b0, b1, b2, b3) == Combine(h, l)
    ensures m == 0x3 ==> (IsUtf8Four(b0, b1, b2, b3) && Bits4(b0, b1, b2, b3) == Combine(h, l) <==> Combine(h, l) < 0x100000)
  {
  }

  /** The two encoders agree below plane 16 and nowhere above it. */
  lemma FixedAgreesBelowPlane16(h: bv16, l: bv16)
    requires IsHighSurrogate(h) && IsLowSurrogate(l)
    ensures U16sToU8(h, l) == U16sToU8Fixed(h, l) <==> Combine(h, l) < 0x100000
  {
  }

  /** U+1F600 (the pair D83D DE00) is F0 9F 98 80; U+100000 (DBC0 DC00)
      comes out of u16stou8 as F0 80 80 80, an overlong form of U+0000,
      where UTF-8 has F4 80 80 80. */
  lemma U16sToU8Examples()
    ensures U16sToU8(0xD83D, 0xDE00) == [0xF0, 0x9F, 0x98, 0x80]
    ensures Combine(0xDBC0, 0xDC00) == 0x100000
    ensures U16sToU8(0xDBC0, 0xDC00) == [0xF0, 0x80, 0x80, 0x80]
    ensures Utf8Decode(U16sToU8(0xDBC0, 0xDC00)) == Malformed
    ensures U16sToU8Fixed(0xDBC0, 0xDC00) == [0xF4, 0x80, 0x80, 0x80]
  {
  }

  /** U+00E9 is C3 A9. */
  lemma U16ToU8Example()
    ensures U16ToU8(0x00E9) == [0xC3, 0xA9]
  {
  }
}
