/** The vocabulary of jsonny.h: the token kinds jsonny_scan returns, the
    error codes, and the expectation states of jsonny.c that share the
    js_state field with them. */
module Tokens {

  /** enum jsonny_type_t, in declaration order. */
  datatype TokenType =
    | Error | Eof | String | Number | ObjectStart | Key | ObjectEnd
    | ArrayStart | Sep | ArrayEnd | True | False | Null

  /** The error codes JSONNY_ERR_MEM (9) .. JSONNY_ERR_BADC (20). */
  datatype ErrorKind =
    | ErrMem | ErrUBadC | ErrUEnc | ErrEsc | ErrStr | ErrNum
    | ErrPrim | ErrKey | ErrSep | ErrDlm | ErrEof | ErrBadC
  {
    function Code(): int {
      match this
      case ErrMem => 9
      case ErrUBadC => 10
      case ErrUEnc => 11
      case ErrEsc => 12
      case ErrStr => 13
      case ErrNum => 14
      case ErrPrim => 15
      case ErrKey => 16
      case ErrSep => 17
      case ErrDlm => 18
      case ErrEof => 19
      case ErrBadC => 20
    }
  }

  /** js_state: one of the three expectations JSONNY_EXP_VALUE (1),
      JSONNY_EXP_KEY (2), JSONNY_EXP_SEP_OR_END (3), or an error code. */
  datatype State = ExpValue | ExpKey | ExpSepOrEnd | Failed(err: ErrorKind)
  {
    function Code(): int {
      match this
      case ExpValue => 1
      case ExpKey => 2
      case ExpSepOrEnd => 3
      case Failed(e) => e.Code()
    }
  }

  /** The token kinds whose text is the lexeme buffer. */
  predicate HasText(t: TokenType) {
    t in {String, Number, Key, True, False, Null}
  }
}
