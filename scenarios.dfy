/** Whole documents run through jsonny_scan from a freshly reset scanner,
    including the places where the scanner departs from the JSON grammar:
    an empty object, an empty array and an object cut off after its `{`.
    Documents are written as their bytes, with their text beside them;
    each `...Steps` lemma evaluates the individual calls and the document
    lemma strings them together. */
module Scenarios {
  import opened Chars
  import opened Tokens
  import opened Utf
  import opened Lexemes
  import opened Dispatch

  /** One more call in front of a run. */
  lemma {:induction false} RunCons(c: Config, data: seq<bv8>, n: nat, r: Step)
    requires c.pos <= |data| && ScanStep(c, data) == r
    ensures Run(c, data, n + 1).0 == [TokenOf(r)] + Run(r.cfg, data, n).0
    ensures Run(c, data, n + 1).1 == Run(r.cfg, data, n).1
  {
  }

  // [1,true]
  const ARRAY_DOC: seq<bv8> := [0x5B, 0x31, 0x2C, 0x74, 0x72, 0x75, 0x65, 0x5D]

  lemma ArraySteps()
    ensures ScanStep(Reset(0), ARRAY_DOC) == Step(ArrayStart, Config(ExpValue, [OPEN_ARRAY], [], 1))
    ensures ScanStep(Config(ExpValue, [OPEN_ARRAY], [], 1), ARRAY_DOC)
      == Step(Number, Config(ExpSepOrEnd, [OPEN_ARRAY], [0x31], 2))
    ensures ScanStep(Config(ExpSepOrEnd, [OPEN_ARRAY], [0x31], 2), ARRAY_DOC)
      == Step(Sep, Config(ExpValue, [OPEN_ARRAY], [0x31], 3))
    ensures ScanStep(Config(ExpValue, [OPEN_ARRAY], [0x31], 3), ARRAY_DOC)
      == Step(True, Config(ExpSepOrEnd, [OPEN_ARRAY], TRUE_TEXT, 7))
  {
    assert Munch(ARRAY_DOC, 1, NStart) == Munched(2, NInt);
    assert ARRAY_DOC[3..7] == TRUE_TEXT;
  }

  lemma ArrayEnds()
    ensures ScanStep(Config(ExpSepOrEnd, [OPEN_ARRAY], TRUE_TEXT, 7), ARRAY_DOC)
      == Step(ArrayEnd, Config(ExpSepOrEnd, [], TRUE_TEXT, 8))
    ensures ScanStep(Config(ExpSepOrEnd, [], TRUE_TEXT, 8), ARRAY_DOC)
      == Step(Eof, Config(ExpSepOrEnd, [], TRUE_TEXT, 8))
  {
  }

  /** `[1,true]` begins with ARRAY_START, NUMBER "1", SEP, after which a
      value is expected inside the array ... */
  lemma ArrayHead()
    ensures Run(Reset(0), ARRAY_DOC, 3).0 ==
      [Token(ArrayStart, []), Token(Number, [0x31]), Token(Sep, [])]
    ensures Run(Reset(0), ARRAY_DOC, 3).1 == Config(ExpValue, [OPEN_ARRAY], [0x31], 3)
  {
    var d := ARRAY_DOC;
    var c1 := Config(ExpValue, [OPEN_ARRAY], [], 1);
    var c2 := Config(ExpSepOrEnd, [OPEN_ARRAY], [0x31], 2);
    var c3 := Config(ExpValue, [OPEN_ARRAY], [0x31], 3);
    hide ScanStep;
    ArraySteps();
    RunCons(c2, d, 0, Step(Sep, c3));
    RunCons(c1, d, 1, Step(Number, c2));
    RunCons(Reset(0), d, 2, Step(ArrayStart, c1));
  }

  /** ... and goes on with TRUE, ARRAY_END and EOF, with nothing left open. */
  lemma ArrayTail()
    ensures Run(Config(ExpValue, [OPEN_ARRAY], [0x31], 3), ARRAY_DOC, 3).0 ==
      [Token(True, TRUE_TEXT), Token(ArrayEnd, []), Token(Eof, [])]
    ensures Run(Config(ExpValue, [OPEN_ARRAY], [0x31], 3), ARRAY_DOC, 3).1 ==
      Config(ExpSepOrEnd, [], TRUE_TEXT, 8)
  {
    var d := ARRAY_DOC;
    var c3 := Config(ExpValue, [OPEN_ARRAY], [0x31], 3);
    var c4 := Config(ExpSepOrEnd, [OPEN_ARRAY], TRUE_TEXT, 7);
    var c5 := Config(ExpSepOrEnd, [], TRUE_TEXT, 8);
    hide ScanStep;
    ArraySteps();
    ArrayEnds();
    RunCons(c5, d, 0, Step(Eof, c5));
    RunCons(c4, d, 1, Step(ArrayEnd, c5));
    RunCons(c3, d, 2, Step(True, c4));
  }

  // {"a":1,"b":2}
  const OBJECT_DOC: seq<bv8> :=
    [0x7B, 0x22, 0x61, 0x22, 0x3A, 0x31, 0x2C, 0x22, 0x62, 0x22, 0x3A, 0x32, 0x7D]

  /** A string literal holding one plain byte. */
  lemma {:induction false} OneByteString(data: seq<bv8>, i: nat)
    requires i + 3 <= |data|
    requires data[i] == 0x22 && data[i + 2] == 0x22 && data[i + 1] != 0x22 && data[i + 1] != 0x5C
    ensures StringLex(data, i) == Lexed(Accepted, [data[i + 1]], i + 3)
  {
    var b := data[i + 1];
    assert StringStep(data, i + 1) == More([b], i + 2);
    assert StringStep(data, i + 2) == Done(Lexed(Accepted, [], i + 3));
    StringBodyCons(data, i + 1, [b], i + 2);
    assert [b] + [] == [b];
  }

  lemma ObjectStepsFirst()
    ensures ScanStep(Reset(0), OBJECT_DOC) == Step(ObjectStart, Config(ExpKey, [OPEN_OBJECT], [], 1))
  {
  }

  lemma ObjectKeyA()
    ensures ScanStep(Config(ExpKey, [OPEN_OBJECT], [], 1), OBJECT_DOC)
      == Step(Key, Config(ExpValue, [OPEN_OBJECT], [0x61], 5))
  {
    OneByteString(OBJECT_DOC, 1);
  }

  lemma ObjectStepsSecond()
    ensures ScanStep(Config(ExpValue, [OPEN_OBJECT], [0x61], 5), OBJECT_DOC)
      == Step(Number, Config(ExpSepOrEnd, [OPEN_OBJECT], [0x31], 6))
    ensures ScanStep(Config(ExpSepOrEnd, [OPEN_OBJECT], [0x31], 6), OBJECT_DOC)
      == Step(Sep, Config(ExpKey, [OPEN_OBJECT], [0x31], 7))
  {
    assert Munch(OBJECT_DOC, 5, NStart) == Munched(6, NInt);
  }

  lemma ObjectKeyB()
    ensures ScanStep(Config(ExpKey, [OPEN_OBJECT], [0x31], 7), OBJECT_DOC)
      == Step(Key, Config(ExpValue, [OPEN_OBJECT], [0x62], 11))
  {
    OneByteString(OBJECT_DOC, 7);
  }

  lemma ObjectStepsThird()
    ensures ScanStep(Config(ExpValue, [OPEN_OBJECT], [0x62], 11), OBJECT_DOC)
      == Step(Number, Config(ExpSepOrEnd, [OPEN_OBJECT], [0x32], 12))
    ensures ScanStep(Config(ExpSepOrEnd, [OPEN_OBJECT], [0x32], 12), OBJECT_DOC)
      == Step(ObjectEnd, Config(ExpSepOrEnd, [], [0x32], 13))
    ensures ScanStep(Config(ExpSepOrEnd, [], [0x32], 13), OBJECT_DOC)
      == Step(Eof, Config(ExpSepOrEnd, [], [0x32], 13))
  {
    assert Munch(OBJECT_DOC, 11, NStart) == Munched(12, NInt);
  }

  /** `{"a":1,"b":2}` begins with OBJECT_START, KEY "a", NUMBER "1" and
      SEP, after which a key is expected ... */
  lemma ObjectHead()
    ensures Run(Reset(0), OBJECT_DOC, 4).0 ==
      [Token(ObjectStart, []), Token(Key, [0x61]), Token(Number, [0x31]), Token(Sep, [])]
    ensures Run(Reset(0), OBJECT_DOC, 4).1 == Config(ExpKey, [OPEN_OBJECT], [0x31], 7)
  {
    var d := OBJECT_DOC;
    var c1 := Config(ExpKey, [OPEN_OBJECT], [], 1);
    var c2 := Config(ExpValue, [OPEN_OBJECT], [0x61], 5);
    var c3 := Config(ExpSepOrEnd, [OPEN_OBJECT], [0x31], 6);
    var c4 := Config(ExpKey, [OPEN_OBJECT], [0x31], 7);
    hide ScanStep;
    ObjectStepsFirst();
    ObjectKeyA();
    ObjectStepsSecond();
    RunCons(c3, d, 0, Step(Sep, c4));
    RunCons(c2, d, 1, Step(Number, c3));
    RunCons(c1, d, 2, Step(Key, c2));
    RunCons(Reset(0), d, 3, Step(ObjectStart, c1));
  }

  /** ... and goes on with KEY "b", NUMBER "2", OBJECT_END and EOF, with
      nothing left open. */
  lemma ObjectTail()
    ensures Run(Config(ExpKey, [OPEN_OBJECT], [0x31], 7), OBJECT_DOC, 4).0 ==
      [Token(Key, [0x62]), Token(Number, [0x32]), Token(ObjectEnd, []), Token(Eof, [])]
    ensures Run(Config(ExpKey, [OPEN_OBJECT], [0x31], 7), OBJECT_DOC, 4).1 ==
      Config(ExpSepOrEnd, [], [0x32], 13)
  {
    var d := OBJECT_DOC;
    var c4 := Config(ExpKey, [OPEN_OBJECT], [0x31], 7);
    var c5 := Config(ExpValue, [OPEN_OBJECT], [0x62], 11);
    var c6 := Config(ExpSepOrEnd, [OPEN_OBJECT], [0x32], 12);
    var c7 := Config(ExpSepOrEnd, [], [0x32], 13);
    hide ScanStep;
    ObjectKeyB();
    ObjectStepsThird();
    RunCons(c7, d, 0, Step(Eof, c7));
    RunCons(c6, d, 1, Step(ObjectEnd, c7));
    RunCons(c5, d, 2, Step(Number, c6));
    RunCons(c4, d, 3, Step(Key, c5));
  }

  /** `{}` is OBJECT_START and then JSONNY_ERR_STR: after `{` a key is
      expected, and `}` is not the quote that opens one. */
  lemma EmptyObject()
    ensures Run(Reset(0), [0x7B, 0x7D], 2).0 == [Token(ObjectStart, []), Token(Error, [])]
    ensures Run(Reset(0), [0x7B, 0x7D], 2).1.state == Failed(ErrStr)
  {
    var d: seq<bv8> := [0x7B, 0x7D];
    var c1 := Config(ExpKey, [OPEN_OBJECT], [], 1);
    var c2 := Config(Failed(ErrStr), [OPEN_OBJECT], [], 2);
    assert ScanStep(Reset(0), d) == Step(ObjectStart, c1);
    assert ScanStep(c1, d) == Step(Error, c2);
    RunCons(c1, d, 0, Step(Error, c2));
    RunCons(Reset(0), d, 1, Step(ObjectStart, c1));
  }

  /** `[]` is ARRAY_START and then JSONNY_ERR_BADC: after `[` a value is
      expected, and `]` does not start one. */
  lemma EmptyArray()
    ensures Run(Reset(0), [0x5B, 0x5D], 2).0 == [Token(ArrayStart, []), Token(Error, [])]
    ensures Run(Reset(0), [0x5B, 0x5D], 2).1.state == Failed(ErrBadC)
  {
    var d: seq<bv8> := [0x5B, 0x5D];
    var c1 := Config(ExpValue, [OPEN_ARRAY], [], 1);
    var c2 := Config(Failed(ErrBadC), [OPEN_ARRAY], [], 1);
    assert ScanStep(Reset(0), d) == Step(ArrayStart, c1);
    assert ScanStep(c1, d) == Step(Error, c2);
    RunCons(c1, d, 0, Step(Error, c2));
    RunCons(Reset(0), d, 1, Step(ArrayStart, c1));
  }

  /** `{` and then the end of the input is JSONNY_ERR_STR, not
      JSONNY_ERR_EOF. */
  lemma CutObject()
    ensures Run(Reset(0), [0x7B], 2).0 == [Token(ObjectStart, []), Token(Error, [])]
    ensures Run(Reset(0), [0x7B], 2).1.state == Failed(ErrStr)
  {
    var d: seq<bv8> := [0x7B];
    var c1 := Config(ExpKey, [OPEN_OBJECT], [], 1);
    var c2 := Config(Failed(ErrStr), [OPEN_OBJECT], [], 1);
    assert ScanStep(Reset(0), d) == Step(ObjectStart, c1);
    assert ScanStep(c1, d) == Step(Error, c2);
    RunCons(c1, d, 0, Step(Error, c2));
    RunCons(Reset(0), d, 1, Step(ObjectStart, c1));
  }

  /** An empty (or all white space) input is JSONNY_ERR_BADC: a value is
      expected and the end of the input does not start one. */
  lemma EmptyDocument()
    ensures Run(Reset(0), [0x20, 0x0B], 1).0 == [Token(Error, [])]
    ensures Run(Reset(0), [0x20, 0x0B], 1).1.state == Failed(ErrBadC)
  {
    var d: seq<bv8> := [0x20, 0x0B];
    assert SkipSpace(d, 0) == 2;
    RunCons(Reset(0), d, 0, Step(Error, Config(Failed(ErrBadC), [], [], 2)));
  }

  const MISMATCHED_DOC: seq<bv8> := [0x5B, 0x31, 0x7D]  // [1}

  lemma MismatchedSteps()
    ensures ScanStep(Reset(0), MISMATCHED_DOC) == Step(ArrayStart, Config(ExpValue, [OPEN_ARRAY], [], 1))
    ensures ScanStep(Config(ExpValue, [OPEN_ARRAY], [], 1), MISMATCHED_DOC)
      == Step(Number, Config(ExpSepOrEnd, [OPEN_ARRAY], [0x31], 2))
    ensures ScanStep(Config(ExpSepOrEnd, [OPEN_ARRAY], [0x31], 2), MISMATCHED_DOC)
      == Step(Error, Config(Failed(ErrDlm), [], [0x31], 3))
  {
    assert Munch(MISMATCHED_DOC, 1, NStart) == Munched(2, NInt);
  }

  /** `[1}` closes an array with a brace: JSONNY_ERR_DLM, and the `[` has
      been popped. */
  lemma MismatchedClose()
    ensures Run(Reset(0), MISMATCHED_DOC, 3).0 ==
      [Token(ArrayStart, []), Token(Number, [0x31]), Token(Error, [])]
    ensures Run(Reset(0), MISMATCHED_DOC, 3).1.state == Failed(ErrDlm)
    ensures Run(Reset(0), MISMATCHED_DOC, 3).1.stack == []
  {
    var d := MISMATCHED_DOC;
    var c1 := Config(ExpValue, [OPEN_ARRAY], [], 1);
    var c2 := Config(ExpSepOrEnd, [OPEN_ARRAY], [0x31], 2);
    var c3 := Config(Failed(ErrDlm), [], [0x31], 3);
    hide ScanStep;
    MismatchedSteps();
    RunCons(c2, d, 0, Step(Error, c3));
    RunCons(c1, d, 1, Step(Number, c2));
    RunCons(Reset(0), d, 2, Step(ArrayStart, c1));
  }

  /** `"\u00e9"` is the string é, whose lexeme is the UTF-8 bytes C3 A9. */
  lemma EscapedString()
    ensures StringLex([0x22, 0x5C, 0x75, 0x30, 0x30, 0x65, 0x39, 0x22], 0) == Lexed(Accepted, [0xC3, 0xA9], 8)
  {
    var d: seq<bv8> := [0x22, 0x5C, 0x75, 0x30, 0x30, 0x65, 0x39, 0x22];
    assert ReadHex4(d, 3) == HexOk(0x00E9, 7);
    U16ToU8Example();
    var text: seq<bv8> := [0xC3, 0xA9];
    assert EscapeLex(d, 3) == Lexed(Accepted, text, 7);
    hide EscapeLex;
    assert StringStep(d, 1) == More(text, 7);
    assert StringStep(d, 7) == Done(Lexed(Accepted, [], 8));
    StringBodyCons(d, 1, text, 7);
    assert text + [] == text;
  }

  const PAIR_DOC: seq<bv8> :=
    [0x22, 0x5C, 0x75, 0x64, 0x38, 0x33, 0x64, 0x5C, 0x75, 0x64, 0x65, 0x30, 0x30, 0x22]

  lemma HighUnit()
    ensures ReadHex4(PAIR_DOC, 3) == HexOk(0xD83D, 7)
  {
    assert HexDigits(PAIR_DOC, 7, 0, 0xD83D) == HexOk(0xD83D, 7);
    assert HexDigits(PAIR_DOC, 6, 1, 0xD83) == HexOk(0xD83D, 7);
    assert HexDigits(PAIR_DOC, 5, 2, 0xD8) == HexOk(0xD83D, 7);
    assert HexDigits(PAIR_DOC, 4, 3, 0xD) == HexOk(0xD83D, 7);
  }

  lemma LowUnit()
    ensures ReadHex4(PAIR_DOC, 9) == HexOk(0xDE00, 13)
  {
    assert HexDigits(PAIR_DOC, 13, 0, 0xDE00) == HexOk(0xDE00, 13);
    assert HexDigits(PAIR_DOC, 12, 1, 0xDE0) == HexOk(0xDE00, 13);
    assert HexDigits(PAIR_DOC, 11, 2, 0xDE) == HexOk(0xDE00, 13);
    assert HexDigits(PAIR_DOC, 10, 3, 0xD) == HexOk(0xDE00, 13);
  }

  lemma PairEscape()
    ensures EscapeLex(PAIR_DOC, 3) == Lexed(Accepted, [0xF0, 0x9F, 0x98, 0x80], 13)
  {
    HighUnit();
    LowUnit();
    U16sToU8Examples();
  }

  /** `"\ud83d\ude00"` is the string 😀 (U+1F600), whose lexeme is the
      UTF-8 bytes F0 9F 98 80. */
  lemma SurrogatePairString()
    ensures StringLex(PAIR_DOC, 0) == Lexed(Accepted, [0xF0, 0x9F, 0x98, 0x80], 14)
  {
    var text: seq<bv8> := [0xF0, 0x9F, 0x98, 0x80];
    PairEscape();
    hide EscapeLex;
    assert StringStep(PAIR_DOC, 1) == More(text, 13);
    assert StringStep(PAIR_DOC, 13) == Done(Lexed(Accepted, [], 14));
    StringBodyCons(PAIR_DOC, 1, text, 13);
    assert text + [] == text;
  }

  /** `dbc0\udc00`, the rest of the escape `\udbc0\udc00` after its `\u`:
      the pair for U+100000, the first code point of plane 16. */
  const PLANE16_ESCAPE: seq<bv8> := [0x64, 0x62, 0x63, 0x30, 0x5C, 0x75, 0x64, 0x63, 0x30, 0x30]

  /** As written, jsonny_scan_utf16_escape accepts this pair and pushes
      F0 80 80 80, which is not UTF-8 at all: the 0x3 mask of u16stou8
      drops the top bit of the code point. */
  lemma PlaneSixteenEscape()
    ensures EscapeLex(PLANE16_ESCAPE, 0) == Lexed(Accepted, [0xF0, 0x80, 0x80, 0x80], 10)
    ensures Utf8Decode(EscapeLex(PLANE16_ESCAPE, 0).text) == Malformed
  {
    assert HexDigits(PLANE16_ESCAPE, 3, 1, 0xDBC) == HexOk(0xDBC0, 4);
    assert HexDigits(PLANE16_ESCAPE, 2, 2, 0xDB) == HexOk(0xDBC0, 4);
    assert HexDigits(PLANE16_ESCAPE, 1, 3, 0xD) == HexOk(0xDBC0, 4);
    assert ReadHex4(PLANE16_ESCAPE, 0) == HexOk(0xDBC0, 4);
    assert HexDigits(PLANE16_ESCAPE, 9, 1, 0xDC0) == HexOk(0xDC00, 10);
    assert HexDigits(PLANE16_ESCAPE, 8, 2, 0xDC) == HexOk(0xDC00, 10);
    assert HexDigits(PLANE16_ESCAPE, 7, 3, 0xD) == HexOk(0xDC00, 10);
    assert ReadHex4(PLANE16_ESCAPE, 6) == HexOk(0xDC00, 10);
    U16sToU8Examples();
  }
}
