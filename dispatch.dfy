/** One call of jsonny_scan as a function of the scanner's configuration
    and the input: the expectation state machine, the `[`/`{` nesting stack
    that replaces recursion, and the sticky error states. The lemmas state
    its transition table, what the stack may hold and when it changes, and
    that errors are never left. */
module Dispatch {
  import opened Chars
  import opened Streams
  import opened Tokens
  import opened Lexemes

  /** What persists between calls: js_state, the nesting stack js_stk, the
      lexeme js_str, and the cursor of the stream. */
  datatype Config = Config(state: State, stack: seq<bv8>, lexeme: seq<bv8>, pos: nat)

  /** One call: the token returned and the configuration after it. */
  datatype Step = Step(tok: TokenType, cfg: Config)

  const OPEN_ARRAY: bv8 := 0x5B   // '['
  const OPEN_OBJECT: bv8 := 0x7B  // '{'

  const TRUE_TEXT: seq<bv8> := [0x74, 0x72, 0x75, 0x65]         // "true"
  const FALSE_TEXT: seq<bv8> := [0x66, 0x61, 0x6C, 0x73, 0x65]  // "false"
  const NULL_TEXT: seq<bv8> := [0x6E, 0x75, 0x6C, 0x6C]         // "null"

  predicate IsOpener(b: bv8) { b == OPEN_ARRAY || b == OPEN_OBJECT }

  /** The nesting stack holds nothing but openers. */
  predicate AllOpeners(s: seq<bv8>) {
    forall k | 0 <= k < |s| :: IsOpener(s[k])
  }

  /** The configuration jsonny_reset_scanner leaves (the cursor belongs to
      the stream, not to the scanner). */
  function Reset(pos: nat): (c: Config)
    ensures c.state == ExpValue && AllOpeners(c.stack) && |c.stack| == 0 && c.lexeme == [] && c.pos == pos
  {
    Config(ExpValue, [], [], pos)
  }

  /** The do { fgetc } while (isspace(c)) loop: the position of the first
      character that is not white space, or the end of the input. */
  function SkipSpace(data: seq<bv8>, i: nat): (j: nat)
    requires i <= |data|
    ensures i <= j <= |data| && !IsSpace(At(data, j))
    ensures forall k | i <= k < j :: IsSpace(At(data, k))
    decreases |data| - i
  {
    if IsSpace(At(data, i)) then SkipSpace(data, i + 1) else i
  }

  /** The outcome of a sub-scanner called for a value: its token, after
      which a separator or an end is expected, or its error. */
  function ValueStep(c: Config, r: Lexed, t: TokenType): (s: Step)
    ensures s.cfg.stack == c.stack && s.cfg.lexeme == r.text && s.cfg.pos == r.next
    ensures r.status == Accepted ==> s.tok == t && s.cfg.state == ExpSepOrEnd
    ensures r.status.Rejected? ==> s.tok == Error && s.cfg.state == Failed(r.status.err)
  {
    match r.status
    case Accepted => Step(t, Config(ExpSepOrEnd, c.stack, r.text, r.next))
    case Rejected(e) => Step(Error, Config(Failed(e), c.stack, r.text, r.next))
  }

  /** jsonny_scan. */
  function ScanStep(c: Config, data: seq<bv8>): (r: Step)
    requires c.pos <= |data|
    ensures c.pos <= r.cfg.pos <= |data|
  {
    var p := SkipSpace(data, c.pos);
    match c.state
    case Failed(_) =>
      Step(Error, c.(pos := p))
    case ExpKey =>
      var s := StringLex(data, p);
      if s.status.Rejected? then Step(Error, Config(Failed(s.status.err), c.stack, s.text, s.next))
      else
        var q := SkipSpace(data, s.next);
        if At(data, q) != COLON then Step(Error, Config(Failed(ErrKey), c.stack, s.text, Adv(data, q)))
        else Step(Key, Config(ExpValue, c.stack, s.text, Adv(data, q)))
    case ExpSepOrEnd =>
      var ch := At(data, p);
      var next := Adv(data, p);
      if ch == COMMA then
        if |c.stack| == 0 then Step(Error, c.(state := Failed(ErrSep), pos := next))
        else
          var s := if c.stack[|c.stack| - 1] == OPEN_ARRAY then ExpValue else ExpKey;
          Step(Sep, c.(state := s, pos := next))
      else if ch == RBRACKET || ch == RBRACE then
        if |c.stack| == 0 then Step(Error, c.(state := Failed(ErrDlm), pos := next))
        else
          var d := c.stack[|c.stack| - 1];
          var popped := c.stack[..|c.stack| - 1];
          if (ch == RBRACKET && d != OPEN_ARRAY) || (ch == RBRACE && d != OPEN_OBJECT) then
            Step(Error, c.(state := Failed(ErrDlm), stack := popped, pos := next))
          else
            Step(if ch == RBRACKET then ArrayEnd else ObjectEnd, c.(stack := popped, pos := next))
      else if ch == EOF then
        if |c.stack| == 0 then Step(Eof, c.(pos := next))
        else Step(Error, c.(state := Failed(ErrEof), pos := next))
      else
        Step(Error, c.(state := Failed(ErrBadC), pos := next))
    case ExpValue =>
      var ch := At(data, p);
      if ch == LOWER_T then ValueStep(c, PrimLex(data, p, TRUE_TEXT), True)
      else if ch == LOWER_F then ValueStep(c, PrimLex(data, p, FALSE_TEXT), False)
      else if ch == LOWER_N then ValueStep(c, PrimLex(data, p, NULL_TEXT), Null)
      else if ch == QUOTE then ValueStep(c, StringLex(data, p), String)
      else if ch == LBRACKET then Step(ArrayStart, c.(state := ExpValue, stack := c.stack + [OPEN_ARRAY], pos := p + 1))
      else if ch == LBRACE then Step(ObjectStart, c.(state := ExpKey, stack := c.stack + [OPEN_OBJECT], pos := p + 1))
      else if ch == MINUS || IsDigit(ch) then ValueStep(c, NumberLex(data, p), Number)
      else Step(Error, c.(state := Failed(ErrBadC), pos := p))
  }

  /** What one call can make the buffers hold: the lexeme is the one it
      had or was read from the input, and the stack grows by at most one
      marker. */
  lemma ScanStepSizes(c: Config, data: seq<bv8>)
    requires c.pos <= |data|
    ensures var r := ScanStep(c, data);
      (r.cfg.lexeme == c.lexeme || |r.cfg.lexeme| <= |data|) && |r.cfg.stack| <= |c.stack| + 1
  {
    var p := SkipSpace(data, c.pos);
    StringLexBounds(data, p);
  }

  /** jsonny_scan skips white space before it looks at anything, so the
      white space before a token makes no difference to the call. */
  lemma {:induction false} ScanStepSkipsSpace(c: Config, data: seq<bv8>)
    requires c.pos <= |data|
    ensures ScanStep(c, data) == ScanStep(c.(pos := SkipSpace(data, c.pos)), data)
  {
    var p := SkipSpace(data, c.pos);
    assert SkipSpace(data, p) == p;
  }

  /** A token is ERROR exactly when the scanner is, or becomes, stuck in
      an error state. */
  lemma {:induction false} ErrorIffFailed(c: Config, data: seq<bv8>)
    requires c.pos <= |data|
    ensures var r := ScanStep(c, data); r.tok == Error <==> r.cfg.state.Failed?
  {
    var p := SkipSpace(data, c.pos);
    match c.state
    case Failed(_) =>
    case ExpKey =>
    case ExpSepOrEnd =>
    case ExpValue =>
  }

  /** The state transition table of jsonny_scan: a key is followed by a
      value; a scalar value by a separator or an end; a separator by a value
      inside `[` and by a key inside `{`; `[` by a value and `{` by a key; an
      end by a separator or an end. */
  lemma {:induction false} ScanTransitions(c: Config, data: seq<bv8>)
    requires c.pos <= |data|
    ensures var r := ScanStep(c, data);
      (r.tok == Key ==> c.state == ExpKey && r.cfg.state == ExpValue) &&
      (r.tok in {String, Number, True, False, Null} ==> c.state == ExpValue && r.cfg.state == ExpSepOrEnd) &&
      (r.tok == Sep ==>
        c.state == ExpSepOrEnd && |c.stack| > 0 &&
        r.cfg.state == (if c.stack[|c.stack| - 1] == OPEN_ARRAY then ExpValue else ExpKey)) &&
      (r.tok == ArrayStart ==> c.state == ExpValue && r.cfg.state == ExpValue) &&
      (r.tok == ObjectStart ==> c.state == ExpValue && r.cfg.state == ExpKey) &&
      (r.tok in {ArrayEnd, ObjectEnd, Eof} ==> c.state == ExpSepOrEnd && r.cfg.state == ExpSepOrEnd)
  {
    var p := SkipSpace(data, c.pos);
    match c.state
    case Failed(_) =>
    case ExpKey =>
    case ExpSepOrEnd =>
    case ExpValue =>
  }

  /** JSONNY_ERR_EOF only arises where a separator or an end is expected,
      at the end of the input, with a container still open. */
  lemma {:induction false} EofErrorOrigin(c: Config, data: seq<bv8>)
    requires c.pos <= |data| && !c.state.Failed?
    ensures var r := ScanStep(c, data);
      r.cfg.state == Failed(ErrEof) ==>
        c.state == ExpSepOrEnd && SkipSpace(data, c.pos) == |data| && |c.stack| > 0
  {
    if c.state == ExpSepOrEnd {
      EofAtEnd(c, data);
    } else {
      NoEofForValueOrKey(c, data);
    }
  }

  lemma {:induction false} NoEofForValueOrKey(c: Config, data: seq<bv8>)
    requires c.pos <= |data| && (c.state == ExpKey || c.state == ExpValue)
    ensures ScanStep(c, data).cfg.state != Failed(ErrEof)
  {
    StringLexBounds(data, SkipSpace(data, c.pos));
  }

  lemma {:induction false} EofAtEnd(c: Config, data: seq<bv8>)
    requires c.pos <= |data| && c.state == ExpSepOrEnd
    ensures ScanStep(c, data).cfg.state == Failed(ErrEof) ==> SkipSpace(data, c.pos) == |data| && |c.stack| > 0
  {
  }

  /** Errors are sticky: in an error state jsonny_scan only skips white
      space and returns ERROR, changing neither the state, the stack nor
      the lexeme. */
  lemma {:induction false} ErrorsAreSticky(c: Config, data: seq<bv8>, n: nat)
    requires c.pos <= |data| && c.state.Failed?
    ensures Run(c, data, n).1.state == c.state
    ensures Run(c, data, n).1.stack == c.stack && Run(c, data, n).1.lexeme == c.lexeme
    ensures forall k | 0 <= k < |Run(c, data, n).0| :: Run(c, data, n).0[k] == Token(Error, [])
    ensures |Run(c, data, n).0| == n
    decreases n
  {
    if n > 0 {
      var r := ScanStep(c, data);
      ErrorsAreSticky(r.cfg, data, n - 1);
    }
  }

  /** How jsonny_scan changes the nesting stack: it only ever holds `[` and
      `{`; it grows by exactly the opener on ARRAY_START and OBJECT_START and
      on nothing else; it loses exactly the matching opener on ARRAY_END and
      OBJECT_END; the only other change is the pop of a mismatched opener,
      which is JSONNY_ERR_DLM. */
  lemma {:induction false} ScanStack(c: Config, data: seq<bv8>)
    requires c.pos <= |data|
    ensures var r := ScanStep(c, data);
      (AllOpeners(c.stack) ==> AllOpeners(r.cfg.stack)) &&
      (r.tok == ArrayStart ==> r.cfg.stack == c.stack + [OPEN_ARRAY]) &&
      (r.tok == ObjectStart ==> r.cfg.stack == c.stack + [OPEN_OBJECT]) &&
      (r.tok == ArrayEnd ==> c.stack == r.cfg.stack + [OPEN_ARRAY]) &&
      (r.tok == ObjectEnd ==> c.stack == r.cfg.stack + [OPEN_OBJECT]) &&
      (|r.cfg.stack| > |c.stack| <==> r.tok in {ArrayStart, ObjectStart}) &&
      (r.tok !in {ArrayStart, ObjectStart, ArrayEnd, ObjectEnd} ==>
        r.cfg.stack == c.stack ||
        (r.tok == Error && r.cfg.state == Failed(ErrDlm) && 0 < |c.stack| && r.cfg.stack == c.stack[..|c.stack| - 1]))
  {
    var r := ScanStep(c, data);
    if c.state == ExpSepOrEnd {
      assert r.cfg.stack == c.stack || r.cfg.stack == c.stack[..|c.stack| - 1];
      if r.cfg.stack != c.stack {
        assert c.stack == r.cfg.stack + [c.stack[|c.stack| - 1]];
      }
    } else if c.state == ExpValue {
      assert r.cfg.stack == c.stack || r.cfg.stack == c.stack + [OPEN_ARRAY] || r.cfg.stack == c.stack + [OPEN_OBJECT];
    }
    if AllOpeners(c.stack) {
      forall k | 0 <= k < |r.cfg.stack|
        ensures IsOpener(r.cfg.stack[k])
      {
        if k < |c.stack| {
          assert r.cfg.stack[k] == c.stack[k];
        }
      }
    }
  }

  /** The errors of the separator-or-end state: a `,` outside any container
      is JSONNY_ERR_SEP; a closer with nothing open, or with the other kind
      open, is JSONNY_ERR_DLM; the end of the input is the end of the
      document (EOF) exactly when nothing is open, and JSONNY_ERR_EOF
      otherwise. */
  lemma {:induction false} SeparatorOrEndErrors(c: Config, data: seq<bv8>)
    requires c.pos <= |data| && c.state == ExpSepOrEnd
    ensures var r := ScanStep(c, data); var ch := At(data, SkipSpace(data, c.pos));
      (ch == COMMA ==> (r.tok == Sep <==> |c.stack| > 0)) &&
      (ch == COMMA && |c.stack| == 0 ==> r.cfg.state == Failed(ErrSep)) &&
      (ch == RBRACKET ==> (r.tok == ArrayEnd <==> |c.stack| > 0 && c.stack[|c.stack| - 1] == OPEN_ARRAY)) &&
      (ch == RBRACE ==> (r.tok == ObjectEnd <==> |c.stack| > 0 && c.stack[|c.stack| - 1] == OPEN_OBJECT)) &&
      ((ch == RBRACKET || ch == RBRACE) && r.tok == Error ==> r.cfg.state == Failed(ErrDlm)) &&
      (ch == EOF ==> (r.tok == Eof <==> |c.stack| == 0)) &&
      (ch == EOF && |c.stack| > 0 ==> r.cfg.state == Failed(ErrEof)) &&
      (r.tok == Eof ==> ch == EOF && |c.stack| == 0)
  {
  }

  // ---------------------------------------------------------------------
  // Several calls

  /** A token as the caller sees it: its kind, and the lexeme when the kind
      has text. */
  datatype Token = Token(kind: TokenType, text: seq<bv8>)

  function TokenOf(r: Step): Token {
    Token(r.tok, if HasText(r.tok) then r.cfg.lexeme else [])
  }

  /** `n` calls of jsonny_scan: the tokens and the final configuration. */
  function Run(c: Config, data: seq<bv8>, n: nat): (res: (seq<Token>, Config))
    requires c.pos <= |data|
    ensures res.1.pos <= |data| && |res.0| == n
    decreases n
  {
    if n == 0 then ([], c)
    else
      var r := ScanStep(c, data);
      var rest := Run(r.cfg, data, n - 1);
      ([TokenOf(r)] + rest.0, rest.1)
  }
}
