/** What each lexeme sub-scanner of jsonny.c does, as pure functions of the
    input bytes and the cursor position: jsonny_scan_utf16_escape,
    jsonny_scan_string, jsonny_scan_number and jsonny_scan_primitive. The
    scanner's methods are proved to behave as these functions say; the
    lemmas here state what the functions mean (the number grammar of
    RFC 8259 section 6 as an automaton, UTF-8 output, string round trips). */
module Lexemes {
  import opened Chars
  import opened Streams
  import opened Utf
  import opened Tokens

  /** How a sub-scanner ends: it returns its token, or it sets js_state to
      an error code. */
  datatype Status = Accepted | Rejected(err: ErrorKind)

  /** What a sub-scanner leaves behind: its status, the bytes it has pushed
      onto the lexeme buffer, and the cursor position in the stream. */
  datatype Lexed = Lexed(status: Status, text: seq<bv8>, next: nat)

  /** `r`, with `b` pushed before the bytes `r` pushes. */
  function Prepend(b: seq<bv8>, r: Lexed): Lexed {
    Lexed(r.status, b + r.text, r.next)
  }

  lemma PrependTwice(a: seq<bv8>, b: seq<bv8>, r: Lexed)
    ensures Prepend(a, Prepend(b, r)) == Prepend(a + b, r)
  {
    assert a + (b + r.text) == (a + b) + r.text;
  }

  // ---------------------------------------------------------------------
  // \uXXXX (jsonny_scan_utf16_escape)

  /** Reading four hexadecimal digits: the code unit they spell, or the
      cursor after the first character that is not one. */
  datatype HexRead = HexOk(unit: bv16, next: nat) | HexBad(next: nat)

  /** The sixteen digit values as code-unit bits. */
  const NIBBLES: seq<bv16> := [0x0, 0x1, 0x2, 0x3, 0x4, 0x5, 0x6, 0x7, 0x8, 0x9, 0xA, 0xB, 0xC, 0xD, 0xE, 0xF]

  /** The unit read so far, with the hexadecimal digit `c` after it. */
  function ShiftIn(acc: bv16, c: int): bv16
    requires IsXDigit(c)
  {
    (acc << 4) | NIBBLES[HexValue(c)]
  }

  /** Reads `n` more hexadecimal digits at `i` onto the unit read so far. */
  function HexDigits(data: seq<bv8>, i: nat, n: nat, acc: bv16): (r: HexRead)
    requires i <= |data|
    ensures i <= r.next <= |data|
    ensures r.HexOk? ==> r.next == i + n
    decreases n
  {
    if n == 0 then HexOk(acc, i)
    else
      var c := At(data, i);
      if IsXDigit(c) then HexDigits(data, i + 1, n - 1, ShiftIn(acc, c))
      else HexBad(Adv(data, i))
  }

  /** One digit of HexDigits. */
  lemma HexDigitsStep(data: seq<bv8>, i: nat, n: nat, acc: bv16)
    requires i <= |data| && n > 0
    ensures var c := At(data, i);
      HexDigits(data, i, n, acc) ==
        if IsXDigit(c) then HexDigits(data, i + 1, n - 1, ShiftIn(acc, c)) else HexBad(Adv(data, i))
  {
  }

  /** The digits are read in full exactly when the next `n` characters are
      all hexadecimal digits. */
  lemma {:induction false} HexDigitsAccepts(data: seq<bv8>, i: nat, n: nat, acc: bv16)
    requires i <= |data|
    ensures HexDigits(data, i, n, acc).HexOk? <==> forall k | i <= k < i + n :: IsXDigit(At(data, k))
    decreases n
  {
    if n > 0 && IsXDigit(At(data, i)) {
      HexDigitsAccepts(data, i + 1, n - 1, ShiftIn(acc, At(data, i)));
    }
  }

  /** The loop `for (i = 0; i < 4; i++)` with the strtol that follows it. */
  function ReadHex4(data: seq<bv8>, i: nat): (r: HexRead)
    requires i <= |data|
    ensures r.next <= i + 4
    ensures r.HexOk? ==> r.next == i + 4
  {
    HexDigits(data, i, 4, 0)
  }

  /** The bits of the hexadecimal digit `c`: its value as a code-unit
      nibble. */
  function Nibble(c: int): (b: bv16)
    requires IsXDigit(c)
    ensures b < 16
  {
    NIBBLES[HexValue(c)]
  }

  /** A nibble's bits are the digit's value. */
  lemma NibbleValue(c: int)
    requires IsXDigit(c)
    ensures Nibble(c) as int == HexValue(c)
  {
    var k := HexValue(c);
    assert NIBBLES[k] as int == k by {
      if k < 8 {
        if k < 4 { assert k in {0, 1, 2, 3}; } else { assert k in {4, 5, 6, 7}; }
      } else {
        if k < 12 { assert k in {8, 9, 10, 11}; } else { assert k in {12, 13, 14, 15}; }
      }
    }
  }

  /** strtol(hex, NULL, 16) on the four digits read: the unit is their
      base-16 positional value, the first digit in the top nibble and the
      last in the bottom one (each nibble's value is its digit's value,
      NibbleValue). */
  lemma ReadHex4Value(data: seq<bv8>, i: nat)
    requires i <= |data|
    ensures var r := ReadHex4(data, i);
      r.HexOk? ==>
        IsXDigit(At(data, i)) && IsXDigit(At(data, i + 1)) && IsXDigit(At(data, i + 2)) && IsXDigit(At(data, i + 3)) &&
        r.unit ==
          (Nibble(At(data, i)) << 12) | (Nibble(At(data, i + 1)) << 8) |
          (Nibble(At(data, i + 2)) << 4) | Nibble(At(data, i + 3))
  {
    if ReadHex4(data, i).HexOk? {
      HexDigitsAccepts(data, i, 4, 0);
      assert IsXDigit(At(data, i)) && IsXDigit(At(data, i + 1)) && IsXDigit(At(data, i + 2)) && IsXDigit(At(data, i + 3));
      var a, b, c, d := Nibble(At(data, i)), Nibble(At(data, i + 1)), Nibble(At(data, i + 2)), Nibble(At(data, i + 3));
      var u1 := ShiftIn(0, At(data, i));
      var u2 := ShiftIn(u1, At(data, i + 1));
      var u3 := ShiftIn(u2, At(data, i + 2));
      var u4 := ShiftIn(u3, At(data, i + 3));
      assert ReadHex4(data, i) == HexOk(u4, i + 4);
      NibbleShifts(a, b, c, d);
    }
  }

  /** Four nibbles shifted in one after the other land in their places. */
  lemma NibbleShifts(a: bv16, b: bv16, c: bv16, d: bv16)
    requires a < 16 && b < 16 && c < 16 && d < 16
    ensures ((((((((0 << 4) | a) << 4) | b) << 4) | c) << 4) | d) == ((a << 12) | (b << 8) | (c << 4) | d)
  {
  }

  /** Nibbles placed at bits 12, 8, 4 and 0 add up. */
  lemma OrIsSum(a: bv16, b: bv16, c: bv16, d: bv16)
    requires a < 16 && b < 16 && c < 16 && d < 16
    ensures ((a << 12) | (b << 8) | (c << 4) | d) as int == 4096 * (a as int) + 256 * (b as int) + 16 * (c as int) + d as int
  {
  }

  /** strtol(hex, NULL, 16) as a number: the unit read is
      4096 d0 + 256 d1 + 16 d2 + d3 for the values d0..d3 of the four
      digits. */
  lemma ReadHex4Positional(data: seq<bv8>, i: nat)
    requires i <= |data|
    ensures var r := ReadHex4(data, i);
      r.HexOk? ==>
        IsXDigit(At(data, i)) && IsXDigit(At(data, i + 1)) && IsXDigit(At(data, i + 2)) && IsXDigit(At(data, i + 3)) &&
        r.unit as int ==
          4096 * HexValue(At(data, i)) + 256 * HexValue(At(data, i + 1)) +
          16 * HexValue(At(data, i + 2)) + HexValue(At(data, i + 3))
  {
    if ReadHex4(data, i).HexOk? {
      ReadHex4Value(data, i);
      NibbleValue(At(data, i));
      NibbleValue(At(data, i + 1));
      NibbleValue(At(data, i + 2));
      NibbleValue(At(data, i + 3));
      OrIsSum(Nibble(At(data, i)), Nibble(At(data, i + 1)), Nibble(At(data, i + 2)), Nibble(At(data, i + 3)));
    }
  }

  /** jsonny_scan_utf16_escape, entered with the cursor just after `\u`:
      one unit, or a surrogate followed by `\u` and a second unit; the
      bytes are the UTF-8 encoding of the unit or of the pair. */
  function EscapeLex(data: seq<bv8>, i: nat): (r: Lexed)
    requires i <= |data|
    ensures i <= r.next <= |data|
    ensures r.status == Accepted ==> i + 4 <= r.next && 1 <= |r.text| <= 4 && |r.text| <= r.next - i
    ensures r.status.Rejected? ==> r.text == [] && r.status.err in {ErrUBadC, ErrUEnc}
  {
    match ReadHex4(data, i)
    case HexBad(n) => Lexed(Rejected(ErrUBadC), [], n)
    case HexOk(u, j) =>
      if !IsSurrogate(u) then Lexed(Accepted, U16ToU8(u), j)
      else PairLex(data, j, u)
  }

  /** The rest of jsonny_scan_utf16_escape after a first unit `u` in the
      surrogate range: `\u`, four more digits, and the pair's bytes. */
  function PairLex(data: seq<bv8>, j: nat, u: bv16): (r: Lexed)
    requires j <= |data|
    ensures j <= r.next <= |data|
    ensures r.status == Accepted ==> r.next == j + 6 && |r.text| == 4
    ensures r.status.Rejected? ==> r.text == [] && r.status.err in {ErrUBadC, ErrUEnc}
  {
    if At(data, j) != BACKSLASH then Lexed(Rejected(ErrUEnc), [], Adv(data, j))
    else if At(data, j + 1) != LOWER_U then Lexed(Rejected(ErrUEnc), [], Adv(data, j + 1))
    else
      match ReadHex4(data, j + 2)
      case HexBad(n) => Lexed(Rejected(ErrUBadC), [], n)
      case HexOk(l, k) =>
        var b := U16sToU8(u, l);
        if b == [] then Lexed(Rejected(ErrUEnc), [], k) else Lexed(Accepted, b, k)
  }

  /** What an accepted escape pushes: after four digits, one well-formed
      UTF-8 character for the unit itself; after ten characters, the bytes
      u16stou8 writes for a high/low pair, which decode to the pair's code
      point exactly when it is below U+100000 (see Utf.U16sToU8Encodes). */
  lemma {:induction false} EscapeDecodes(data: seq<bv8>, i: nat)
    requires i <= |data|
    ensures var r := EscapeLex(data, i);
      r.status == Accepted ==>
        ReadHex4(data, i).HexOk? &&
        (r.next == i + 4 ==>
          !IsSurrogate(ReadHex4(data, i).unit) &&
          Utf8Decode(r.text) == Scalar(ReadHex4(data, i).unit as bv32)) &&
        (r.next != i + 4 ==>
          r.next == i + 10 && ReadHex4(data, i + 6).HexOk? &&
          IsHighSurrogate(ReadHex4(data, i).unit) && IsLowSurrogate(ReadHex4(data, i + 6).unit) &&
          r.text == U16sToU8(ReadHex4(data, i).unit, ReadHex4(data, i + 6).unit) &&
          (Utf8Decode(r.text) == Scalar(Combine(ReadHex4(data, i).unit, ReadHex4(data, i + 6).unit)) <==>
           Combine(ReadHex4(data, i).unit, ReadHex4(data, i + 6).unit) < 0x100000))
  {
    var r := EscapeLex(data, i);
    if r.status == Accepted {
      var h := ReadHex4(data, i);
      if IsSurrogate(h.unit) {
        var l := ReadHex4(data, i + 6);
        assert l.HexOk? && r.next == i + 10;
        U16sToU8Encodes(h.unit, l.unit);
      } else {
        EscapeUnit(data, i);
      }
    }
  }

  /** Four digits spelling a unit outside the surrogate range are the
      whole escape, and its bytes decode to that unit. */
  lemma {:induction false} EscapeUnit(data: seq<bv8>, i: nat)
    requires i <= |data|
    requires ReadHex4(data, i).HexOk? && !IsSurrogate(ReadHex4(data, i).unit)
    ensures var u := ReadHex4(data, i).unit;
      EscapeLex(data, i) == Lexed(Accepted, U16ToU8(u), i + 4) && Utf8Decode(U16ToU8(u)) == Scalar(u as bv32)
  {
    U16ToU8Encodes(ReadHex4(data, i).unit);
  }

  /** The errors of jsonny_scan_utf16_escape: a character that is not a
      hexadecimal digit among either four is JSONNY_ERR_UBADC; a first unit
      in the surrogate range without `\u` after it is JSONNY_ERR_UENC; and a
      second unit is accepted exactly when the two form a high then low
      pair, JSONNY_ERR_UENC otherwise. */
  lemma {:induction false} EscapeErrors(data: seq<bv8>, i: nat)
    requires i <= |data|
    ensures var r := EscapeLex(data, i); var h := ReadHex4(data, i);
      (h.HexBad? ==> r.status == Rejected(ErrUBadC)) &&
      (h.HexOk? && !IsSurrogate(h.unit) ==> r.status == Accepted) &&
      (h.HexOk? && IsSurrogate(h.unit) && (At(data, i + 4) != BACKSLASH || At(data, i + 5) != LOWER_U) ==>
        r.status == Rejected(ErrUEnc)) &&
      (h.HexOk? && IsSurrogate(h.unit) && At(data, i + 4) == BACKSLASH && At(data, i + 5) == LOWER_U ==>
        var l := ReadHex4(data, i + 6);
        (l.HexBad? ==> r.status == Rejected(ErrUBadC)) &&
        (l.HexOk? ==>
          r.status == if IsHighSurrogate(h.unit) && IsLowSurrogate(l.unit) then Accepted else Rejected(ErrUEnc)))
  {
  }

  // ---------------------------------------------------------------------
  // Strings (jsonny_scan_string)

  /** The characters that may follow a backslash, other than `u`. */
  predicate IsSimpleEscape(e: int): (b: bool)
    ensures b ==> 0x20 < e < 0x80 && e != LOWER_U
  {
    e in {QUOTE, BACKSLASH, SLASH, 0x62, 0x66, 0x6E, 0x72, 0x74}
  }

  /** The byte `\"`, `\\`, `\/`, `\b`, `\f`, `\n`, `\r` or `\t` stands for. */
  function Unescape(e: int): (b: bv8)
    requires IsSimpleEscape(e)
    ensures b as int == e <==> e in {QUOTE, BACKSLASH, SLASH}
    ensures b as int != e ==> b < 0x20
  {
    if e == 0x62 then 0x08
    else if e == 0x66 then 0x0C
    else if e == 0x6E then 0x0A
    else if e == 0x72 then 0x0D
    else if e == 0x74 then 0x09
    else e as bv8
  }

  /** One turn of the loop of jsonny_scan_string: it ends the string (with
      the closing quote, or with an error), or it pushes the bytes one
      character or escape stands for and goes on at `next`. */
  datatype StringTurn = Done(result: Lexed) | More(text: seq<bv8>, next: nat)

  function StringStep(data: seq<bv8>, i: nat): (t: StringTurn)
    requires i <= |data|
    ensures t.More? ==> i < t.next <= |data| && |t.text| <= t.next - i
    ensures t.Done? ==> i <= t.result.next <= |data| && t.result.text == []
    ensures t.Done? && t.result.status == Accepted ==> t.result.next == i + 1 && At(data, i) == QUOTE
    ensures t.Done? && t.result.status.Rejected? ==> t.result.status.err in {ErrStr, ErrEsc, ErrUBadC, ErrUEnc}
  {
    var c := At(data, i);
    if c == EOF then Done(Lexed(Rejected(ErrStr), [], |data|))
    else if c == QUOTE then Done(Lexed(Accepted, [], i + 1))
    else if c == BACKSLASH then
      var e := At(data, i + 1);
      if IsSimpleEscape(e) then More([Unescape(e)], i + 2)
      else if e == LOWER_U then
        var u := EscapeLex(data, i + 2);
        if u.status == Accepted then More(u.text, u.next) else Done(u)
      else Done(Lexed(Rejected(ErrEsc), [], Adv(data, i + 1)))
    else More([c as bv8], i + 1)
  }

  /** The loop of jsonny_scan_string after the opening quote. */
  function StringBody(data: seq<bv8>, i: nat): (r: Lexed)
    requires i <= |data|
    ensures i <= r.next <= |data|
    decreases |data| - i
  {
    match StringStep(data, i)
    case Done(r) => r
    case More(b, j) => Prepend(b, StringBody(data, j))
  }

  /** jsonny_scan_string: an opening quote, then the body. */
  function StringLex(data: seq<bv8>, i: nat): (r: Lexed)
    requires i <= |data|
    ensures i <= r.next <= |data|
  {
    if At(data, i) != QUOTE then Lexed(Rejected(ErrStr), [], Adv(data, i))
    else StringBody(data, i + 1)
  }

  /** Which input gives which error of jsonny_scan_string: a missing
      opening quote, or the end of input where a character is expected,
      gives ErrStr; a backslash before anything but a simple escape or `u`
      (the end of input included) gives ErrEsc, consuming that character;
      the \u errors are those of the escape. */
  lemma StringErrors(data: seq<bv8>, i: nat)
    requires i <= |data|
    ensures At(data, i) != QUOTE ==> StringLex(data, i) == Lexed(Rejected(ErrStr), [], Adv(data, i))
    ensures var t := StringStep(data, i);
      (t.Done? && t.result.status == Rejected(ErrStr) <==> At(data, i) == EOF) &&
      (At(data, i) == EOF ==> t == Done(Lexed(Rejected(ErrStr), [], |data|)))
    ensures var t := StringStep(data, i); var e := At(data, i + 1);
      (t.Done? && t.result.status == Rejected(ErrEsc) <==> At(data, i) == BACKSLASH && !IsSimpleEscape(e) && e != LOWER_U) &&
      (At(data, i) == BACKSLASH && !IsSimpleEscape(e) && e != LOWER_U ==>
        t == Done(Lexed(Rejected(ErrEsc), [], Adv(data, i + 1))))
    ensures var t := StringStep(data, i);
      (t.Done? && t.result.status.Rejected? && t.result.status.err in {ErrUBadC, ErrUEnc}) <==>
      (At(data, i) == BACKSLASH && At(data, i + 1) == LOWER_U && EscapeLex(data, i + 2).status.Rejected?)
  {
  }

  /** ErrStr from the string loop means the input ended before the
      closing quote. */
  lemma {:induction false} StringBodyEndsAtEof(data: seq<bv8>, i: nat)
    requires i <= |data|
    ensures StringBody(data, i).status == Rejected(ErrStr) ==> StringBody(data, i).next == |data|
    decreases |data| - i
  {
    hide EscapeLex;
    match StringStep(data, i)
    case Done(_) =>
    case More(_, j) => StringBodyEndsAtEof(data, j);
  }

  /** A string lexeme never holds more bytes than the characters it was
      read from, so the lexeme buffer need never outgrow the input. */
  lemma {:induction false} StringLexBounds(data: seq<bv8>, i: nat)
    requires i <= |data|
    ensures var r := StringLex(data, i);
      i <= r.next <= |data| && |r.text| < r.next - i + 1 &&
      (r.status == Accepted ==> i + 2 <= r.next && At(data, i) == QUOTE && At(data, r.next - 1) == QUOTE) &&
      (r.status.Rejected? ==> r.status.err in {ErrStr, ErrEsc, ErrUBadC, ErrUEnc})
  {
    if At(data, i) == QUOTE {
      StringBodyFacts(data, i + 1);
    }
  }

  /** The loop never pushes more bytes than it reads; when it succeeds it
      has just read the closing quote; it fails only with a string, escape
      or \u error. */
  lemma {:induction false} StringBodyFacts(data: seq<bv8>, i: nat)
    requires i <= |data|
    ensures var r := StringBody(data, i);
      i <= r.next <= |data| && |r.text| <= r.next - i &&
      (r.status == Accepted ==> i < r.next && At(data, r.next - 1) == QUOTE) &&
      (r.status.Rejected? ==> r.status.err in {ErrStr, ErrEsc, ErrUBadC, ErrUEnc})
    decreases |data| - i
  {
    hide StringStep;
    match StringStep(data, i)
    case Done(_) =>
    case More(_, j) => StringBodyFacts(data, j);
  }

  /** Every byte that is neither `"` nor `\` -- control characters and
      bytes from 0x80 up included -- is pushed as it is. */
  lemma {:induction false} StringVerbatim(data: seq<bv8>, i: nat, j: nat)
    requires i <= j <= |data|
    requires forall k | i <= k < j :: data[k] as int != QUOTE && data[k] as int != BACKSLASH
    ensures StringBody(data, i) == Prepend(data[i..j], StringBody(data, j))
    decreases j - i
  {
    if i < j {
      assert StringStep(data, i) == More([data[i]], i + 1);
      StringVerbatim(data, i + 1, j);
      PrependTwice([data[i]], data[i + 1..j], StringBody(data, j));
      assert [data[i]] + data[i + 1..j] == data[i..j];
    } else {
      assert [] + StringBody(data, j).text == StringBody(data, j).text;
    }
  }

  /** The body of a string literal holding `s`, as a JSON writer escapes
      it: `"` and `\` get a backslash, backspace, form feed, line feed,
      carriage return and tab are written `\b`, `\f`, `\n`, `\r` and `\t`,
      and every other byte stands for itself. */
  function Escaped(s: seq<bv8>): (r: seq<bv8>)
    ensures |s| <= |r|
  {
    if s == [] then []
    else EscapedByte(s[0]) + Escaped(s[1..])
  }

  /** The string literal holding `s`. */
  function Quote(s: seq<bv8>): seq<bv8> {
    [0x22] + Escaped(s) + [0x22]
  }

  /** The characters that stand for the byte `b` in a literal. */
  function EscapedByte(b: bv8): (r: seq<bv8>)
    ensures 1 <= |r| <= 2
  {
    if b == 0x22 || b == 0x5C then [0x5C, b]
    else if b == 0x08 then [0x5C, 0x62]
    else if b == 0x0C then [0x5C, 0x66]
    else if b == 0x0A then [0x5C, 0x6E]
    else if b == 0x0D then [0x5C, 0x72]
    else if b == 0x09 then [0x5C, 0x74]
    else [b]
  }

  lemma {:induction false} SplitSlice(data: seq<bv8>, i: nat, j: nat, k: nat, head: seq<bv8>, rest: seq<bv8>)
    requires j == i + |head| && k == j + |rest| && k <= |data|
    requires data[i..k] == head + rest
    ensures data[i..j] == head
    ensures data[j..k] == rest
  {
    assert data[i..j] == data[i..k][..|head|];
    assert data[j..k] == data[i..k][|head|..];
  }

  /** The loop, unrolled once. */
  lemma {:induction false} StringBodyCons(data: seq<bv8>, i: nat, b: seq<bv8>, j: nat)
    requires i <= |data| && StringStep(data, i) == More(b, j)
    ensures StringBody(data, i).status == StringBody(data, j).status
    ensures StringBody(data, i).text == b + StringBody(data, j).text
    ensures StringBody(data, i).next == StringBody(data, j).next
  {
  }

  /** One turn of the loop reads back the byte an escaped character stands for. */
  lemma {:induction false} EscapedByteStep(data: seq<bv8>, i: nat, b: bv8)
    requires i + |EscapedByte(b)| <= |data|
    requires data[i..i + |EscapedByte(b)|] == EscapedByte(b)
    ensures StringStep(data, i) == More([b], i + |EscapedByte(b)|)
  {
    assert data[i] == data[i..i + |EscapedByte(b)|][0];
    if |EscapedByte(b)| == 2 {
      assert data[i + 1] == data[i..i + 2][1];
    }
  }

  /** `\/`, which the writer above never produces, is read back as `/`. */
  lemma SolidusStep(data: seq<bv8>, i: nat)
    requires i + 2 <= |data| && data[i..i + 2] == [0x5C, 0x2F]
    ensures StringStep(data, i) == More([0x2F], i + 2)
  {
    assert data[i] == data[i..i + 2][0] && data[i + 1] == data[i..i + 2][1];
  }

  lemma {:induction false} StringBodyOfEscaped(data: seq<bv8>, i: nat, s: seq<bv8>)
    requires i + |Escaped(s)| < |data|
    requires data[i..i + |Escaped(s)| + 1] == Escaped(s) + [0x22]
    ensures StringBody(data, i) == Lexed(Accepted, s, i + |Escaped(s)| + 1)
    decreases s
  {
    hide StringStep, StringBody, EscapeLex;
    if s == [] {
      assert data[i] == data[i..i + 1][0];
      ClosingQuote(data, i);
    } else {
      var j := i + |EscapedByte(s[0])|;
      EscapedSplit(data, i, s, j);
      StringBodyOfEscaped(data, j, s[1..]);
      EscapedByteStep(data, i, s[0]);
      StringBodyCons(data, i, [s[0]], j);
      assert [s[0]] + s[1..] == s;
    }
  }

  /** A quote ends the loop with the bytes pushed so far. */
  lemma ClosingQuote(data: seq<bv8>, i: nat)
    requires i < |data| && data[i] == 0x22
    ensures StringBody(data, i) == Lexed(Accepted, [], i + 1)
  {
    hide EscapeLex;
    assert StringStep(data, i) == Done(Lexed(Accepted, [], i + 1));
  }

  /** A literal body splits into the first byte's characters and the rest. */
  lemma {:induction false} EscapedSplit(data: seq<bv8>, i: nat, s: seq<bv8>, j: nat)
    requires s != [] && j == i + |EscapedByte(s[0])|
    requires i + |Escaped(s)| < |data|
    requires data[i..i + |Escaped(s)| + 1] == Escaped(s) + [0x22]
    ensures j + |Escaped(s[1..])| == i + |Escaped(s)|
    ensures data[i..j] == EscapedByte(s[0])
    ensures data[j..j + |Escaped(s[1..])| + 1] == Escaped(s[1..]) + [0x22]
  {
    var head, rest := EscapedByte(s[0]), Escaped(s[1..]) + [0x22];
    EscapedCons(s);
    hide Escaped;
    assert Escaped(s) + [0x22] == head + rest;
    SplitSlice(data, i, j, i + |Escaped(s)| + 1, head, rest);
  }

  lemma EscapedCons(s: seq<bv8>)
    requires s != []
    ensures Escaped(s) == EscapedByte(s[0]) + Escaped(s[1..])
  {
  }

  /** Scanning the literal of any byte string gives that byte string back,
      and stops just after the literal. */
  lemma {:induction false} StringRoundTrip(data: seq<bv8>, i: nat, s: seq<bv8>)
    requires i + |Quote(s)| <= |data|
    requires data[i..i + |Quote(s)|] == Quote(s)
    ensures StringLex(data, i) == Lexed(Accepted, s, i + |Quote(s)|)
  {
    var rest := Escaped(s) + [0x22];
    assert Quote(s) == [0x22] + rest;
    SplitSlice(data, i, i + 1, i + |Quote(s)|, [0x22], rest);
    assert data[i] == data[i..i + 1][0];
    StringBodyOfEscaped(data, i + 1, s);
  }

  // ---------------------------------------------------------------------
  // Numbers (jsonny_scan_number)

  /** The number grammar of RFC 8259 section 6,
        number = [ minus ] int [ frac ] [ exp ]
        int = zero / ( digit1-9 *DIGIT )
        frac = decimal-point 1*DIGIT
        exp = e [ minus / plus ] 1*DIGIT
      as a deterministic automaton; NDead is the state from which no
      continuation is a number. */
  datatype NumState =
    | NStart | NMinus | NZero | NInt | NDot | NFrac | NExpMark | NExpSign | NExpDigits | NDead

  predicate IsExpMark(c: int) { c == LOWER_E || c == UPPER_E }

  function NumStep(q: NumState, c: int): NumState {
    match q
    case NStart => if c == MINUS then NMinus else if c == ZERO then NZero else if IsDigit(c) then NInt else NDead
    case NMinus => if c == ZERO then NZero else if IsDigit(c) then NInt else NDead
    case NZero => if c == DOT then NDot else if IsExpMark(c) then NExpMark else NDead
    case NInt => if IsDigit(c) then NInt else if c == DOT then NDot else if IsExpMark(c) then NExpMark else NDead
    case NDot => if IsDigit(c) then NFrac else NDead
    case NFrac => if IsDigit(c) then NFrac else if IsExpMark(c) then NExpMark else NDead
    case NExpMark => if c == PLUS || c == MINUS then NExpSign else if IsDigit(c) then NExpDigits else NDead
    case NExpSign => if IsDigit(c) then NExpDigits else NDead
    case NExpDigits => if IsDigit(c) then NExpDigits else NDead
    case NDead => NDead
  }

  predicate Accepting(q: NumState) {
    q in {NZero, NInt, NFrac, NExpDigits}
  }

  /** The state after reading `s`. */
  function NumRun(q: NumState, s: seq<bv8>): NumState
    decreases |s|
  {
    if s == [] then q else NumStep(NumRun(q, s[..|s| - 1]), s[|s| - 1] as int)
  }

  /** `s` is a JSON number. */
  predicate IsJsonNumber(s: seq<bv8>) {
    Accepting(NumRun(NStart, s))
  }

  /** `s` can still be continued into a JSON number. */
  predicate IsNumberPrefix(s: seq<bv8>) {
    NumRun(NStart, s) != NDead
  }

  /** Where reading stops: the first position whose character cannot
      continue the number, and the state before it. */
  datatype Munched = Munched(end: nat, last: NumState)

  function Munch(data: seq<bv8>, i: nat, q: NumState): (m: Munched)
    requires i <= |data| && q != NDead
    ensures i <= m.end <= |data| && m.last != NDead
    decreases |data| - i
  {
    var q' := NumStep(q, At(data, i));
    if q' == NDead then Munched(i, q) else Munch(data, i + 1, q')
  }

  /** Munch stops at a character the automaton rejects. */
  lemma {:induction false} MunchStops(data: seq<bv8>, i: nat, q: NumState)
    requires i <= |data| && q != NDead
    ensures var m := Munch(data, i, q); NumStep(m.last, At(data, m.end)) == NDead
    decreases |data| - i
  {
    var q' := NumStep(q, At(data, i));
    if q' != NDead {
      MunchStops(data, i + 1, q');
    }
  }

  /** jsonny_scan_number: reads the longest prefix the automaton does not
      reject and accepts it if it is a whole number; the character that
      stopped it is pushed back on success and consumed on failure. */
  function NumberLex(data: seq<bv8>, i: nat): (r: Lexed)
    requires i <= |data|
    ensures r.status == Accepted || r.status == Rejected(ErrNum)
    ensures i + |r.text| <= |data| && r.text == data[i..i + |r.text|]
    ensures r.next == if r.status == Accepted then i + |r.text| else Adv(data, i + |r.text|)
  {
    var m := Munch(data, i, NStart);
    if Accepting(m.last) then Lexed(Accepted, data[i..m.end], m.end)
    else Lexed(Rejected(ErrNum), data[i..m.end], Adv(data, m.end))
  }

  /** Once the automaton, in state `q` at `k`, rejects the next character,
      the number that began at `start` ends at `k`. */
  lemma NumberEnds(data: seq<bv8>, start: nat, k: nat, q: NumState)
    requires start <= k <= |data| && q != NDead
    requires Munch(data, start, NStart) == Munch(data, k, q) && NumStep(q, At(data, k)) == NDead
    ensures NumberLex(data, start) ==
      if Accepting(q) then Lexed(Accepted, data[start..k], k)
      else Lexed(Rejected(ErrNum), data[start..k], Adv(data, k))
  {
    hide NumStep;
    assert Munch(data, k, q) == Munched(k, q);
  }

  lemma {:induction false} DeadStaysDead(q: NumState, s: seq<bv8>, t: seq<bv8>)
    requires NumRun(q, s) == NDead
    ensures NumRun(q, s + t) == NDead
    decreases |t|
  {
    if t == [] {
      assert s + t == s;
    } else {
      DeadStaysDead(q, s, t[..|t| - 1]);
      assert (s + t)[..|s + t| - 1] == s + t[..|t| - 1];
    }
  }

  lemma {:induction false} SliceSnoc(data: seq<bv8>, a: nat, b: nat)
    requires a <= b < |data|
    ensures data[a..b + 1] == data[a..b] + [data[b]]
  {
  }

  /** The state after reading data[a..b], counted by position. */
  function RunRange(data: seq<bv8>, a: nat, b: nat): NumState
    requires a <= b <= |data|
    decreases b
  {
    if a == b then NStart else NumStep(RunRange(data, a, b - 1), data[b - 1] as int)
  }

  /** RunRange is NumRun on the slice. */
  lemma {:induction false} RunRangeIsRun(data: seq<bv8>, a: nat, b: nat)
    requires a <= b <= |data|
    ensures RunRange(data, a, b) == NumRun(NStart, data[a..b])
    decreases b
  {
    hide NumStep;
    if a < b {
      var s := data[a..b];
      NumRunLast(NStart, s);
      assert |s| == b - a;
      assert s[..|s| - 1] == data[a..b - 1];
      assert s[|s| - 1] == data[b - 1];
      RunRangeIsRun(data, a, b - 1);
    }
  }

  /** The last character of a run is its last step. */
  lemma NumRunLast(q: NumState, s: seq<bv8>)
    requires s != []
    ensures NumRun(q, s) == NumStep(NumRun(q, s[..|s| - 1]), s[|s| - 1] as int)
  {
  }

  /** The automaton rejects the end of the input in every state. */
  lemma EofIsDead(q: NumState)
    ensures NumStep(q, EOF) == NDead
  {
  }

  /** Munch follows the automaton: the state it stops in is the state
      after the characters it read. */
  lemma {:induction false} MunchRuns(data: seq<bv8>, i0: nat, i: nat, q: NumState)
    requires i0 <= i <= |data| && q != NDead
    requires q == RunRange(data, i0, i)
    ensures Munch(data, i, q).last == RunRange(data, i0, Munch(data, i, q).end)
    decreases |data| - i
  {
    hide NumStep;
    MunchStep(data, i, q);
    EofIsDead(q);
    if NumStep(q, At(data, i)) != NDead {
      MunchRuns(data, i0, i + 1, NumStep(q, At(data, i)));
    }
  }

  /** One character of Munch. */
  lemma MunchStep(data: seq<bv8>, i: nat, q: NumState)
    requires i <= |data| && q != NDead
    ensures var q' := NumStep(q, At(data, i));
      Munch(data, i, q) == if q' == NDead then Munched(i, q) else Munch(data, i + 1, q')
  {
  }

  /** Every prefix Munch reads through can still become a number. */
  lemma {:induction false} MunchPrefix(data: seq<bv8>, i0: nat, i: nat, q: NumState, j: nat)
    requires i0 <= i <= j <= |data| && q != NDead
    requires q == RunRange(data, i0, i) && j <= Munch(data, i, q).end
    ensures RunRange(data, i0, j) != NDead
    decreases j - i
  {
    hide NumStep;
    if i < j {
      MunchStep(data, i, q);
      EofIsDead(q);
      MunchPrefix(data, i0, i + 1, NumStep(q, At(data, i)), j);
    }
  }

  /** The character that stopped the automaton is one it rejects. */
  lemma {:induction false} MunchStopsDead(data: seq<bv8>, i: nat)
    requires i <= |data|
    ensures var e := Munch(data, i, NStart).end;
      e < |data| ==> RunRange(data, i, e + 1) == NDead
  {
    hide NumStep;
    MunchRuns(data, i, i, NStart);
    MunchStops(data, i, NStart);
  }

  /** No input that goes on past the point where the automaton rejected is
      a number. */
  lemma {:induction false} MunchIsLongest(data: seq<bv8>, i: nat)
    requires i <= |data|
    ensures forall j | Munch(data, i, NStart).end < j <= |data| :: !IsJsonNumber(data[i..j])
  {
    hide NumStep;
    var e := Munch(data, i, NStart).end;
    MunchStopsDead(data, i);
    forall j | e < j <= |data|
      ensures !IsJsonNumber(data[i..j])
    {
      RunRangeIsRun(data, i, e + 1);
      assert data[i..j] == data[i..e + 1] + data[e + 1..j];
      DeadStaysDead(NStart, data[i..e + 1], data[e + 1..j]);
    }
  }

  /** What jsonny_scan_number accepts: the text it pushes is exactly the
      characters it consumed; the token is NUMBER exactly when they form a
      JSON number, and otherwise the error is JSONNY_ERR_NUM; the character
      that stopped it is left unread on success and consumed on failure. */
  lemma {:induction false} NumberLexAccepts(data: seq<bv8>, i: nat)
    requires i <= |data|
    ensures var r := NumberLex(data, i); var e := i + |r.text|;
      e <= |data| && r.text == data[i..e] &&
      (r.status == Accepted <==> IsJsonNumber(r.text)) &&
      (r.status.Rejected? ==> r.status.err == ErrNum) &&
      r.next == (if r.status == Accepted then e else Adv(data, e))
  {
    hide NumStep;
    var m := Munch(data, i, NStart);
    MunchRuns(data, i, i, NStart);
    RunRangeIsRun(data, i, m.end);
  }

  /** The characters jsonny_scan_number consumes form the longest prefix of
      the input that can still be continued into a number (it never
      backtracks), and no longer prefix is a number. */
  lemma {:induction false} NumberLexLongest(data: seq<bv8>, i: nat)
    requires i <= |data|
    ensures var e := i + |NumberLex(data, i).text|;
      e <= |data| &&
      (forall j | i <= j <= e :: IsNumberPrefix(data[i..j])) &&
      (e < |data| ==> !IsNumberPrefix(data[i..e + 1])) &&
      (forall j | e < j <= |data| :: !IsJsonNumber(data[i..j]))
  {
    hide NumStep;
    NumberLexLive(data, i);
    NumberLexStops(data, i);
    NumberLexEnd(data, i);
    MunchIsLongest(data, i);
  }

  /** Every prefix of the characters jsonny_scan_number consumes can still
      be continued into a number. */
  lemma {:induction false} NumberLexLive(data: seq<bv8>, i: nat)
    requires i <= |data|
    ensures var e := i + |NumberLex(data, i).text|;
      e <= |data| && forall j | i <= j <= e :: IsNumberPrefix(data[i..j])
  {
    hide NumStep;
    var e := i + |NumberLex(data, i).text|;
    NumberLexEnd(data, i);
    forall j | i <= j <= e
      ensures IsNumberPrefix(data[i..j])
    {
      MunchPrefix(data, i, i, NStart, j);
      RunRangeIsRun(data, i, j);
    }
  }

  /** The character after them cannot continue them. */
  lemma {:induction false} NumberLexStops(data: seq<bv8>, i: nat)
    requires i <= |data|
    ensures var e := i + |NumberLex(data, i).text|;
      e < |data| ==> !IsNumberPrefix(data[i..e + 1])
  {
    hide NumStep;
    var e := i + |NumberLex(data, i).text|;
    NumberLexEnd(data, i);
    if e < |data| {
      MunchStopsDead(data, i);
      RunRangeIsRun(data, i, e + 1);
    }
  }

  /** The characters jsonny_scan_number consumes end where Munch stops. */
  /** A character the automaton accepts, at a position the munch of the
      number that began at `i` has reached, lies inside that number's text. */
  lemma MunchPast(data: seq<bv8>, i: nat, k: nat, q: NumState)
    requires i <= k <= |data| && q != NDead && Munch(data, i, NStart) == Munch(data, k, q)
    requires NumStep(q, At(data, k)) != NDead
    ensures k < i + |NumberLex(data, i).text|
  {
    EofIsDead(q);
    NumberLexEnd(data, i);
    assert Munch(data, k, q) == Munch(data, k + 1, NumStep(q, At(data, k)));
  }

  lemma {:induction false} NumberLexEnd(data: seq<bv8>, i: nat)
    requires i <= |data|
    ensures i + |NumberLex(data, i).text| == Munch(data, i, NStart).end
  {
  }

  /** "01" is the number 0 followed by an unread 1. */
  lemma NumberLexExample()
    ensures NumberLex([0x30, 0x31], 0) == Lexed(Accepted, [0x30], 1)
  {
  }

  // ---------------------------------------------------------------------
  // true, false, null (jsonny_scan_primitive)

  /** jsonny_scan_primitive: reads |target| characters (fewer only at EOF)
      and accepts them when they are the target. */
  function PrimLex(data: seq<bv8>, i: nat, target: seq<bv8>): (r: Lexed)
    requires i <= |data|
    ensures r.status == Accepted <==> i + |target| <= |data| && data[i..i + |target|] == target
    ensures r.status.Rejected? ==> r.status.err == ErrPrim
    ensures r.next == if i + |target| <= |data| then i + |target| else |data|
    ensures r.text == data[i..r.next]
  {
    if |data| - i < |target| then Lexed(Rejected(ErrPrim), data[i..], |data|)
    else if data[i..i + |target|] == target then Lexed(Accepted, target, i + |target|)
    else Lexed(Rejected(ErrPrim), data[i..i + |target|], i + |target|)
  }

  /** Every character the primitive scanner reads before it has |target|
      of them belongs to its text. */
  lemma PrimLexPast(data: seq<bv8>, i: nat, j: nat, target: seq<bv8>)
    requires i <= j < |data| && j - i < |target|
    ensures j - i < |PrimLex(data, i, target).text|
  {
  }

  /** The primitive scanner looks at exactly |target| characters and at
      nothing after them: its outcome is the same on any input that agrees
      on those characters, and it accepts exactly when they spell target. */
  lemma {:induction false} PrimLexReadsOnlyTarget(data: seq<bv8>, other: seq<bv8>, i: nat, target: seq<bv8>)
    requires i + |target| <= |data| && i + |target| <= |other|
    requires data[i..i + |target|] == other[i..i + |target|]
    ensures PrimLex(data, i, target) == PrimLex(other, i, target)
    ensures PrimLex(data, i, target).status == Accepted <==> data[i..i + |target|] == target
    ensures PrimLex(data, i, target).next == i + |target|
  {
  }
}
