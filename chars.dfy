/** The byte values the scanner compares characters against, and the
    C-locale character classes of <ctype.h> that it uses (isspace, isdigit,
    isxdigit). A character read from the stream is an `int`: a byte value in
    0..255, or EOF. */
module Chars {

  /** What fgetc returns at the end of the stream. */
  const EOF: int := -1

  const QUOTE: int := 0x22      // '"'
  const BACKSLASH: int := 0x5C  // '\\'
  const SLASH: int := 0x2F      // '/'
  const MINUS: int := 0x2D      // '-'
  const PLUS: int := 0x2B       // '+'
  const DOT: int := 0x2E        // '.'
  const COMMA: int := 0x2C      // ','
  const COLON: int := 0x3A      // ':'
  const LBRACKET: int := 0x5B   // '['
  const RBRACKET: int := 0x5D   // ']'
  const LBRACE: int := 0x7B     // '{'
  const RBRACE: int := 0x7D     // '}'
  const ZERO: int := 0x30       // '0'
  const LOWER_E: int := 0x65    // 'e'
  const UPPER_E: int := 0x45    // 'E'
  const LOWER_U: int := 0x75    // 'u'
  const LOWER_T: int := 0x74    // 't'
  const LOWER_F: int := 0x66    // 'f'
  const LOWER_N: int := 0x6E    // 'n'

  /** A value fgetc can return. */
  predicate IsChar(c: int) { c == EOF || 0 <= c < 256 }

  /** isspace in the C locale: space, \t, \n, \v, \f and \r. */
  predicate IsSpace(c: int) { c == 0x20 || 0x09 <= c <= 0x0D }

  /** isdigit in the C locale. */
  predicate IsDigit(c: int) { ZERO <= c <= 0x39 }

  /** isxdigit in the C locale. */
  predicate IsXDigit(c: int) { IsDigit(c) || 0x41 <= c <= 0x46 || 0x61 <= c <= 0x66 }

  /** The value strtol gives one hexadecimal digit. */
  function HexValue(c: int): (v: nat)
    requires IsXDigit(c)
    ensures v < 16
    ensures IsDigit(c) ==> v == c - ZERO
    ensures 0x41 <= c <= 0x46 ==> v == c - 0x41 + 10  // 'A'..'F'
    ensures 0x61 <= c <= 0x66 ==> v == c - 0x61 + 10  // 'a'..'f'
  {
    if IsDigit(c) then c - ZERO
    else if c <= 0x46 then c - 0x41 + 10
    else c - 0x61 + 10
  }
}
