# jsonny scanner, modelled in Dafny

jsonny is a small streaming JSON tokenizer written in C (`jsonny.c`, `jsonny.h`).
A `jsonny_scanner_t` reads a byte stream one character at a time. Each call to
`jsonny_scan` returns the next token: a string, a number, an object key, a
primitive (`true`, `false`, `null`), one of the delimiters `{ } [ ]`, a
separator `,`, end of input, or ERROR. String, key, number and primitive
tokens leave their text in a growable byte buffer (`js_str`). A second
growable buffer (`js_stk`) is the stack of open `[`/`{` delimiters. The field
`js_state` holds either the scanner's expectation (a value, a key, or a
separator or closer) or, after a failure, the error code.

The model is split into modules that follow the program:

- `Chars` (chars.dfy): the character classes of `<ctype.h>` in the C locale,
  with `EOF` as -1.
- `Streams` (stream.dfy): the `FILE *`, modelled as a byte sequence and a
  cursor. `Stream.Getc` and `Stream.Ungetc` act on that cursor.
- `Buffers` (buffer.dfy): `jsonny_push`, `jsonny_pop` and `jsonny_clear` on a
  class over an `array<bv8>`. The capacity doubles on a full push, and an
  overflow guard refuses to grow past half of `SIZE_MAX`.
- `Tokens` (tokens.dfy): the token kinds, the error codes and the states.
- `Utf` (utf.dfy): `issurrogate`, `u16tou8` and `u16stou8`, checked against
  a reference UTF-8 decoder (RFC 3629) and a reference surrogate-pair decoder
  (RFC 2781, section 2.2).
- `Lexemes` (lexemes.dfy): one pure function per sub-scanner (`\u` escapes,
  `scan_string`, `scan_number`, `primitive`). Each returns a status, the bytes
  pushed and the stream position where it stopped. Lemmas state what these
  mean: number acceptance is the grammar of RFC 8259 section 6 with longest
  match, strings round-trip, and a `\u` escape decodes to the scalar value
  it names, except a surrogate pair for a code point from U+100000 up, which
  `u16stou8` as written turns into a malformed sequence (see Findings).
- `NumberGrammar` (number_grammar.dfy): the number rule of RFC 8259
  section 6 written part by part (sign, integer, fraction, exponent), and
  the proof that the automaton of `scan_number` accepts exactly its texts.
- `Dispatch` (dispatch.dfy): `jsonny_scan` as a pure step function
  `ScanStep` on a configuration (state, stack, lexeme, position), and `Run`
  for n successive calls. Lemmas cover the state transitions, the stack
  discipline, where each error comes from, and that errors are sticky.
- `Scanner` (scanner.dfy): the `jsonny_scanner_t` as a class with the two
  buffers. Its methods follow the loops of the C code, and each is proved
  to do what the matching `Lexemes`/`Dispatch` function says. The one
  exception is a push refused by the overflow guard, which ends in ERROR with
  `JSONNY_ERR_MEM`. The guard refuses only a buffer that already holds more
  than `SIZE_MAX / 2` bytes, so this happens only when the lexeme or the
  stack that the pure function asks for is longer than that. On an input of
  at most `SIZE_MAX / 2` bytes, starting from buffers within that bound, a
  call does exactly what `ScanStep` says.
- `Scenarios` (scenarios.dfy): whole token sequences for small documents
  (`[1,true]`, `{"a":1,"b":2}`, `{}`, `[]`, `{`, `[1}`, blank input) and for
  escaped strings.

The model follows the code in several corner cases:

- In the value state, the dispatcher has no branch for end of input, so
  blank input ends in `JSONNY_ERR_BADC`.
- `{}` gives ObjectStart then ERROR with `JSONNY_ERR_STR`, because the key
  scanner expects a quote.
- `{` followed by end of input also gives `JSONNY_ERR_STR`: the key branch
  (jsonny.c:494-506) calls the string scanner, which rejects anything but a
  quote (jsonny.c:216-221). `JSONNY_ERR_EOF` comes only from the separator
  state (jsonny.c:535-541).
- `[]` gives `JSONNY_ERR_BADC`.
- A call made while `js_state` already holds an error falls off the end of
  `jsonny_scan`, and the model returns ERROR.

## Model

| member | source | states |
|---|---|---|
| Chars.HexValue | jsonny.c:160-170 | the value of a hex digit (the `strtol` base-16 conversion) is below 16: `'0'`..`'9'` give 0..9, and `'A'`..`'F'` and `'a'`..`'f'` give 10..15 |
| Streams.At | jsonny.c:216 | `fgetc` yields a byte 0..255 or EOF, and EOF exactly when the cursor is at or past the end of input |
| Streams.Adv | jsonny.c:216 | the cursor stays put exactly when `fgetc` returns EOF, and otherwise advances by one, never past the end |
| Streams.Stream.Getc | jsonny.c:216 | returns the character at the cursor (or EOF) and advances as `Adv` says |
| Streams.Stream.Ungetc | jsonny.c:487-492 | pushing back the last character read moves the cursor back by one; pushing back EOF changes nothing |
| Buffers.Buffer.constructor | jsonny.c:438-453 | a fresh buffer of the requested capacity is empty |
| Buffers.Buffer.Exhausted | jsonny.c:54-58 | a buffer is exhausted, so the next push fails, exactly when it is full and doubling its capacity would exceed `SIZE_MAX` |
| Buffers.Buffer.Push | jsonny.c:50-73 | the push succeeds exactly when the overflow guard allows it; on success the byte is appended and the capacity doubles only when the buffer was full; on failure contents and capacity are unchanged |
| Buffers.Buffer.Pop | jsonny.c:77-85 | on a non-empty buffer, the old contents are the new contents followed by the returned byte |
| Buffers.Buffer.Clear | jsonny.c:96-99 | the contents become empty |
| Utf.SurrogateRanges | jsonny.c:103-117 | a code unit is a surrogate iff it is a high or a low surrogate, never both |
| Utf.Combine | jsonny.c:139-151 | a high/low surrogate pair denotes a supplementary code point 0x10000..0x10FFFF |
| Utf.Split | jsonny.c:139-151 | every supplementary code point has a high/low surrogate pair |
| Utf.CombineSplit | jsonny.c:139-151 | `Combine` and `Split` are inverse bijections between surrogate pairs and supplementary code points |
| Utf.U16ToU8 | jsonny.c:120-136 | writes nothing for a surrogate, and otherwise 1, 2 or 3 bytes by range |
| Utf.U16ToU8Encodes | jsonny.c:120-136 | for every non-surrogate unit the bytes are one well-formed UTF-8 character that decodes to that unit |
| Utf.U16ToU8Decodes | jsonny.c:126-133 | the two- and three-byte patterns decode to the original unit |
| Utf.TwoByteBits | jsonny.c:126-128 | the two-byte pattern is well formed and carries the unit's 11 bits |
| Utf.ThreeByteBits | jsonny.c:129-133 | the three-byte pattern is well formed and carries the unit's 16 bits |
| Utf.U16ToU8Example | jsonny.c:126-128 | U+00E9 is written as C3 A9 |
| Utf.U16sToU8 | jsonny.c:139-151 | as written: four bytes for a high/low pair, nothing otherwise |
| Utf.U16sToU8Encodes | jsonny.c:143 | as written, the four bytes decode to the pair's code point iff that code point is below U+100000 |
| Utf.WrittenBytes | jsonny.c:142-146 | as written, the bytes are a well-formed four-byte sequence carrying the code point iff it is below U+100000 |
| Utf.U16sToU8Examples | jsonny.c:139-151 | D83D DE00 gives F0 9F 98 80; DBC0 DC00 (U+100000) gives F0 80 80 80, which is malformed, where the fixed encoder gives F4 80 80 80 |
| Utf.U16sToU8Fixed | jsonny.c:139-151 | corrected: four bytes for a high/low pair, nothing otherwise |
| Utf.U16sToU8FixedEncodes | jsonny.c:139-151 | corrected: for every high/low pair the bytes are one well-formed UTF-8 character that decodes to the pair's code point |
| Utf.FixedBytes | jsonny.c:142-146 | corrected: the bytes are a well-formed four-byte sequence carrying the code point |
| Utf.DecodeFour | jsonny.c:142-146 | four bytes decode to a code point iff they are a well-formed four-byte sequence carrying its bits |
| Utf.PairBits | jsonny.c:141-146 | the bit arithmetic of lines 141-146 with mask 7 always carries the code point; with mask 3 it does so iff the code point is below U+100000 |
| Utf.FixedAgreesBelowPlane16 | jsonny.c:143 | the written and the corrected encoder agree exactly on the code points below U+100000 |
| Lexemes.HexDigits | jsonny.c:160-169 | reading n hex digits stops within the input, and consumes exactly n characters when it succeeds |
| Lexemes.ReadHex4 | jsonny.c:160-170 | reading a code unit consumes at most four characters, and exactly four when it succeeds |
| Lexemes.Nibble | jsonny.c:160-170 | the bits of a hex digit fit in one nibble |
| Lexemes.NibbleValue | jsonny.c:160-170 | a hex digit's nibble, read as a number, is its base-16 value `HexValue` |
| Lexemes.ReadHex4Value | jsonny.c:160-170 | a successful read saw four hex digits, and the unit holds their nibbles at bits 12, 8, 4 and 0, first digit on top |
| Lexemes.ReadHex4Positional | jsonny.c:160-170 | a successful read saw four hex digits, and the unit is their base-16 positional value: first digit times 4096, second times 256, third times 16, plus the fourth |
| Lexemes.HexDigitsAccepts | jsonny.c:160-169 | the four-digit read succeeds iff every character read is a hex digit |
| Lexemes.EscapeLex | jsonny.c:154-207 | a `\u` escape, with `u16stou8` as written, either pushes 1..4 bytes after at least four characters or fails with `JSONNY_ERR_UBADC`/`JSONNY_ERR_UENC` having pushed nothing |
| Lexemes.PairLex | jsonny.c:171-195 | the second `\uXXXX` of a pair consumes six characters and gives the four bytes `u16stou8` writes as it stands (line 195), or fails with `UBADC`/`UENC` |
| Lexemes.EscapeDecodes | jsonny.c:154-207 | an accepted escape is either four digits of a non-surrogate unit whose bytes decode to that unit, or ten characters holding a high/low pair whose bytes are `u16stou8`'s and decode to the pair's code point iff it is below U+100000 |
| Lexemes.EscapeUnit | jsonny.c:170-197 | a non-surrogate unit is accepted after four digits, with `u16tou8`'s bytes, which decode to the unit |
| Lexemes.EscapeErrors | jsonny.c:160-205 | the error cases: a bad hex digit gives `UBADC`; a surrogate not followed by `\u` gives `UENC`; a bad second digit gives `UBADC`; a second unit gives acceptance iff it is a high followed by a low surrogate, else `UENC` |
| Lexemes.IsSimpleEscape | jsonny.c:228-253 | the characters with a one-byte escape are printable ASCII and do not include `u` |
| Lexemes.Unescape | jsonny.c:228-253 | `\"`, `\\` and `\/` stand for themselves; every other simple escape stands for a control character |
| Lexemes.StringStep | jsonny.c:223-267 | one turn of the string loop: it pushes no more than it consumes; a closing quote accepts; an error is `ESC`, `STR`, `UBADC` or `UENC` |
| Lexemes.StringErrors | jsonny.c:211-276 | which input gives which error: a missing opening quote, or end of input where a string character is expected, gives `JSONNY_ERR_STR`; a backslash before anything other than a simple escape or `u` (end of input included) gives `JSONNY_ERR_ESC` after consuming that character; `UBADC`/`UENC` come exactly from a rejected `\u` escape |
| Lexemes.StringBodyEndsAtEof | jsonny.c:222-275 | `JSONNY_ERR_STR` from the string loop means the input ended before the closing quote |
| Lexemes.StringBody | jsonny.c:223-275 | the string loop stops within the input |
| Lexemes.StringLex | jsonny.c:211-276 | `scan_string` stops within the input |
| Lexemes.StringLexBounds | jsonny.c:211-276 | an accepted string starts and ends with a quote and spans at least two characters; the text is shorter than what was consumed; the errors are `STR`, `ESC`, `UBADC` or `UENC` |
| Lexemes.StringBodyFacts | jsonny.c:223-275 | the loop accepts only after reading a closing quote, and its errors are those four codes |
| Lexemes.StringVerbatim | jsonny.c:262-263 | a run with no quote and no backslash is copied verbatim, raw bytes included |
| Lexemes.EscapedByteStep | jsonny.c:226-263 | each byte written with the escaping of a JSON writer (`\"`, `\\`, `\b`, `\f`, `\n`, `\r`, `\t`, every other byte as itself) is read back as that byte |
| Lexemes.SolidusStep | jsonny.c:236-238 | `\/` is read back as `/` |
| Lexemes.StringBodyOfEscaped | jsonny.c:223-271 | the loop reads back any escaped byte string ending in a quote |
| Lexemes.StringRoundTrip | jsonny.c:211-276 | `scan_string` applied to `Quote(s)`, the literal a JSON writer produces for any byte string `s`, accepts with text `s` and consumes exactly `Quote(s)` |
| Lexemes.Munch | jsonny.c:280-387 | the maximal-munch run of the number automaton ends within the input in a live state |
| Lexemes.MunchStops | jsonny.c:381-384 | the munch stops at the first character the automaton rejects |
| Lexemes.NumberEnds | jsonny.c:381-387 | a number whose munch stops in an accepting state is accepted with exactly the munched text; otherwise it fails with `NUM` after consuming the offending character |
| Lexemes.DeadStaysDead | jsonny.c:280-387 | once the number automaton rejects, no continuation is accepted |
| Lexemes.RunRangeIsRun | jsonny.c:280-387 | the automaton run over a range of the input is the run over that slice |
| Lexemes.MunchRuns | jsonny.c:280-387 | the state where the munch stops is the automaton's run over the munched text |
| Lexemes.MunchPrefix | jsonny.c:280-387 | every prefix of the munched text keeps the automaton live |
| Lexemes.MunchStopsDead | jsonny.c:381-384 | the munched text plus the next character kills the automaton |
| Lexemes.MunchIsLongest | jsonny.c:280-387 | no longer slice of the input starting at the number is an RFC 8259 number |
| Lexemes.NumberLex | jsonny.c:280-387 | `scan_number` accepts or fails with `NUM`; its text is the input read verbatim from the start; on success it stops just after the text, on failure one character later |
| Lexemes.NumberLexAccepts | jsonny.c:280-387 | `scan_number` accepts iff the text it pushed is an RFC 8259 number; otherwise it fails with `NUM` having consumed one more character; the text is the input read verbatim |
| Lexemes.NumberLexLongest | jsonny.c:280-387 | the text is the longest prefix that can still grow into a number: every shorter prefix can, the next character cannot, and no longer slice is a number |
| Lexemes.NumberLexLive | jsonny.c:280-387 | every prefix of the pushed text can still grow into a number |
| Lexemes.NumberLexStops | jsonny.c:381-384 | the pushed text plus the next character cannot grow into a number |
| Lexemes.NumberLexEnd | jsonny.c:280-387 | the pushed text ends where the munch ends |
| Lexemes.NumberLexExample | jsonny.c:296-302 | `01` scans as the number `0`, leaving `1` unread |
| NumberGrammar.JsonNumberGrammar | jsonny.c:280-387 | the automaton of `scan_number` accepts a text iff it is `[ minus ] int [ frac ] [ exp ]` by the rules of RFC 8259 section 6 |
| NumberGrammar.NumberLexGrammar | jsonny.c:280-387 | `scan_number` accepts iff the text it read follows the rule `number`, and no longer slice of the input from the same place follows it |
| Lexemes.PrimLex | jsonny.c:391-416 | `primitive` accepts iff the input spells the target word; it fails only with `PRIM`; it reads as many characters as the word has, or up to the end of input, and its text is what it read |
| Lexemes.PrimLexReadsOnlyTarget | jsonny.c:391-416 | `primitive` reads exactly as many characters as the target word, depends on nothing else, and accepts iff they spell it |
| Dispatch.Reset | jsonny.c:463-468 | after a reset the scanner expects a value, with an empty stack and an empty lexeme |
| Dispatch.SkipSpace | jsonny.c:487-490 | skips exactly the white-space run (`isspace`, including `\v` and `\f`) and stops at a non-space or EOF |
| Dispatch.ValueStep | jsonny.c:546-560 | a sub-scanner called for a value returns its token and leaves a separator or closer expected, or returns ERROR with its error in `js_state`; the stack is kept and the lexeme is its text |
| Dispatch.ScanStep | jsonny.c:483-587 | one call never moves the stream backwards or past the end |
| Dispatch.Run | jsonny.c:483-587 | n calls yield n tokens and stay within the input |
| Dispatch.ScanStepSkipsSpace | jsonny.c:487-492 | leading white space never changes the outcome of a call |
| Dispatch.ErrorIffFailed | jsonny.c:483-587 | a call returns ERROR iff it leaves an error code in `js_state` |
| Dispatch.ScanTransitions | jsonny.c:494-586 | which state each token kind comes from and leads to, including that after `,` the scanner expects a value in an array and a key in an object |
| Dispatch.EofErrorOrigin | jsonny.c:535-541 | `JSONNY_ERR_EOF` arises only when end of input meets a non-empty stack while a separator or closer is expected |
| Dispatch.NoEofForValueOrKey | jsonny.c:494-585 | when a key or a value is expected, `JSONNY_ERR_EOF` never arises |
| Dispatch.EofAtEnd | jsonny.c:535-541 | from the separator state, `JSONNY_ERR_EOF` means only white space remained and the stack was not empty |
| Dispatch.ScanStepSizes | jsonny.c:483-587 | after one call the lexeme is the old one or no longer than the input, and the stack has grown by at most one marker |
| Dispatch.ErrorsAreSticky | jsonny.c:586-587 | once failed, every further call returns ERROR and changes neither the state, the stack nor the lexeme |
| Dispatch.ScanStack | jsonny.c:507-576 | the stack holds only opener markers; openers push their marker; matching closers pop it; the stack grows only on an opener; the only other change is the pop of a mismatched closer |
| Dispatch.SeparatorOrEndErrors | jsonny.c:507-545 | in the separator state: `,` is a separator iff the stack is non-empty, else `SEP`; `]`/`}` close iff they match the top, else `DLM`; EOF is end of input iff the stack is empty, else `EOF` |
| Scanner.Scanner.constructor | jsonny.c:438-453 | a fresh scanner with buffers of the given sizes is in the reset configuration |
| Scanner.Scanner.Reset | jsonny.c:463-468 | expects a value, both buffers empty, capacity kept |
| Scanner.Scanner.ReadHexUnit | jsonny.c:160-170 | reads four hex digits as `ReadHex4` says |
| Scanner.Scanner.ReadUtf16Escape | jsonny.c:154-197 | reads an escape as `EscapeLex` says |
| Scanner.Scanner.ReadLowUnit | jsonny.c:171-195 | reads the low half of a pair and writes the pair's bytes with `u16stou8` as written, as `PairLex` says |
| Scanner.Scanner.PushAll | jsonny.c:198-203 | appends all bytes; or stops at a push the guard refuses, which happens only when the old contents plus the bytes exceed `SIZE_MAX / 2` + 1 |
| Scanner.Scanner.ScanUtf16Escape | jsonny.c:154-207 | consumes what `EscapeLex` consumes; pushes the escape's bytes and returns their count, or sets the escape's error and returns 0, as `EscapeLex` says; or, for an accepted escape whose bytes would take the lexeme past `SIZE_MAX / 2`, returns 0 with `JSONNY_ERR_MEM` |
| Scanner.Scanner.ScanString | jsonny.c:211-276 | token, state, lexeme and position are those of `StringLex`, or ERROR with `JSONNY_ERR_MEM` when the text `StringLex` reads is longer than `SIZE_MAX / 2` |
| Scanner.Scanner.ScanStringBody | jsonny.c:223-275 | the loop ends as `StringBody` says, or with `JSONNY_ERR_MEM` when the text `StringBody` reads is longer than `SIZE_MAX / 2` |
| Scanner.Scanner.ScanStringChar | jsonny.c:224-267 | one loop turn does what `StringStep` says, or fails with `JSONNY_ERR_MEM` when the bytes of the turn would take the lexeme past `SIZE_MAX / 2` |
| Scanner.Scanner.PushChar | jsonny.c:263-267 | appends one byte exactly when the guard allows it; otherwise sets `JSONNY_ERR_MEM` and leaves the contents unchanged |
| Scanner.Scanner.Take | jsonny.c:296-379 | pushes an accepted character and reads the next, keeping the munch invariant; a refused push means the number's text is longer than `SIZE_MAX / 2` |
| Scanner.Scanner.TakeDigits | jsonny.c:304-311 | consumes a run of digits, stopping at the first non-digit; a refused push means the number's text is longer than `SIZE_MAX / 2` |
| Scanner.Scanner.RejectNumber | jsonny.c:280-387 | a character the automaton rejects in a non-accepting state fails with `NUM` as `NumberLex` says |
| Scanner.Scanner.ScanIntPart | jsonny.c:287-315 | the sign and integer part, ending where the automaton can continue only with `.`, `e`, `E`, or not at all; or ends as `NumberLex` says with `NUM`, or with `JSONNY_ERR_MEM` when the number's text is longer than `SIZE_MAX / 2` |
| Scanner.Scanner.ScanFracPart | jsonny.c:317-343 | the fraction, ending where only an exponent or nothing can follow; the failures as for `ScanIntPart` |
| Scanner.Scanner.ScanExpPart | jsonny.c:345-379 | the exponent, ending in an accepting state before a character that kills the automaton; the failures as for `ScanIntPart` |
| Scanner.Scanner.ScanExpDigits | jsonny.c:352-378 | the exponent's optional sign and digits; the failures as for `ScanIntPart` |
| Scanner.Scanner.ScanNumber | jsonny.c:280-387 | token, state, lexeme and position are those of `NumberLex`, or ERROR with `JSONNY_ERR_MEM` when the text `NumberLex` reads is longer than `SIZE_MAX / 2` |
| Scanner.Scanner.AcceptNumber | jsonny.c:381-386 | pushes back the terminating character and returns NUMBER as `NumberLex` says |
| Scanner.Scanner.ScanPrimitive | jsonny.c:391-416 | token, state, lexeme and position are those of `PrimLex`, or ERROR with `JSONNY_ERR_MEM` when the text `PrimLex` reads, which is never longer than the target word, is longer than `SIZE_MAX / 2` |
| Scanner.Scanner.ScanTrue | jsonny.c:420-422 | exactly as `PrimLex` on `true`: four bytes never meet the guard |
| Scanner.Scanner.ScanFalse | jsonny.c:426-428 | exactly as `PrimLex` on `false` |
| Scanner.Scanner.ScanNull | jsonny.c:432-434 | exactly as `PrimLex` on `null` |
| Scanner.Scanner.SkipSpaces | jsonny.c:487-492 | returns the first non-space character and leaves the cursor just past it, as `SkipSpace` says |
| Scanner.Scanner.Scan | jsonny.c:483-587 | the token and the new state, stack, lexeme and position are those of `ScanStep`; or ERROR with `JSONNY_ERR_MEM`, only when the lexeme or the stack `ScanStep` gives is longer than `SIZE_MAX / 2`; so exactly `ScanStep` on an input of at most `SIZE_MAX / 2` bytes with buffers within that bound |
| Scanner.Scanner.ScanKey | jsonny.c:494-506 | the key branch, as `ScanStep`, or `JSONNY_ERR_MEM` only for a key longer than `SIZE_MAX / 2` |
| Scanner.Scanner.ScanSepOrEnd | jsonny.c:507-545 | the separator-or-closer branch, exactly as `ScanStep` |
| Scanner.Scanner.ScanValue | jsonny.c:546-585 | the value branch, as `ScanStep`, or `JSONNY_ERR_MEM` only for a lexeme or a stack longer than `SIZE_MAX / 2` |
| Scanner.Scanner.ScanOpener | jsonny.c:561-576 | `[` and `{` push their marker and set the state to value or key; the push fails, with `JSONNY_ERR_MEM` and the stack unchanged, only when the guard refused the stack before the call |
| Scenarios.ArraySteps | jsonny.c:483-587 | the first four calls on `[1,true]` |
| Scenarios.ArrayEnds | jsonny.c:521-541 | `]` closes the array, then EOF is end of input |
| Scenarios.ArrayHead | jsonny.c:483-587 | `[1,true]` starts ArrayStart, Number `1`, Sep |
| Scenarios.ArrayTail | jsonny.c:483-587 | and continues True, ArrayEnd, EOF, with an empty stack |
| Scenarios.OneByteString | jsonny.c:211-276 | a quoted single plain byte scans as that byte |
| Scenarios.ObjectStepsFirst | jsonny.c:561-576 | `{` on `{"a":1,"b":2}` opens an object expecting a key |
| Scenarios.ObjectKeyA | jsonny.c:494-506 | the key `a` is read with its colon |
| Scenarios.ObjectStepsSecond | jsonny.c:507-584 | the number `1`, then the separator leads back to a key |
| Scenarios.ObjectKeyB | jsonny.c:494-506 | the key `b` is read |
| Scenarios.ObjectStepsThird | jsonny.c:521-541 | the number `2`, `}` and EOF |
| Scenarios.ObjectHead | jsonny.c:483-587 | `{"a":1,"b":2}` starts ObjectStart, Key `a`, Number `1`, Sep |
| Scenarios.ObjectTail | jsonny.c:483-587 | and continues Key `b`, Number `2`, ObjectEnd, EOF |
| Scenarios.EmptyObject | jsonny.c:494-506 | `{}` gives ObjectStart then ERROR with `JSONNY_ERR_STR` |
| Scenarios.EmptyArray | jsonny.c:561-584 | `[]` gives ArrayStart then ERROR with `JSONNY_ERR_BADC` |
| Scenarios.CutObject | jsonny.c:494-506 | `{` followed by end of input gives ERROR with `JSONNY_ERR_STR` |
| Scenarios.EmptyDocument | jsonny.c:487-584 | blank input gives ERROR with `JSONNY_ERR_BADC` |
| Scenarios.MismatchedSteps | jsonny.c:521-534 | the three calls on `[1}` |
| Scenarios.MismatchedClose | jsonny.c:521-534 | `[1}` fails with `JSONNY_ERR_DLM` after popping the stack |
| Scenarios.EscapedString | jsonny.c:254-257 | `"\u00e9"` scans to C3 A9 |
| Scenarios.HighUnit | jsonny.c:160-170 | `D83D` is read as a high surrogate unit |
| Scenarios.LowUnit | jsonny.c:184-194 | `DE00` is read as a low surrogate unit |
| Scenarios.PairEscape | jsonny.c:171-195 | `\uD83D\uDE00` gives F0 9F 98 80 |
| Scenarios.PlaneSixteenEscape | jsonny.c:171-195 | as written, `\uDBC0\uDC00` (U+100000) is accepted with F0 80 80 80, which does not decode |
| Scenarios.SurrogatePairString | jsonny.c:211-276 | the string `"\uD83D\uDE00"` scans to U+1F600 in UTF-8 |

## Left out

- The `FILE *` stream is a byte sequence with a cursor. `feof` is treated as
  the character read being EOF, so read errors are not modelled.
- `calloc` and `realloc` always succeed. `JSONNY_ERR_MEM` arises only from
  the overflow guard at jsonny.c:55-58. The second guard (jsonny.c:59-63)
  cannot fire once the first has passed, so it is not modelled separately.
- The NUL terminators written at jsonny.c:71, 82 and 98 are not modelled.
  This includes the write at jsonny.c:71, one byte past the end when the
  buffer has just been filled. The buffers' contents are their first `len`
  bytes.
- `js_pos` is not modelled. This includes the statement `s->js_pos;` at
  jsonny.c:293, which has no effect.
- `jsonny_peek` (jsonny.c:89-92) is not called by the scanner and is not
  modelled.
- `jsonny_init_scanner`, with its default sizes 8196 and 256, and
  `jsonny_free_scanner` are not modelled. `Scanner.Scanner.constructor`
  takes the sizes, as `jsonny_init_scanner_s` does.
- `strtol` on the four hex digits is modelled as digit-by-digit accumulation.
- Character classes assume the C locale.
- example/example.c is not part of this model.
- Scanner.Scanner.Scan and every scanner method below it that pushes a
  byte (ScanKey, ScanValue, ScanOpener, ScanString, ScanStringBody,
  ScanStringChar, ScanUtf16Escape, ScanNumber and the methods for its parts,
  ScanPrimitive): when a push is refused, the contract says that the result
  is ERROR, `js_state` is `JSONNY_ERR_MEM`, the refused buffer is exhausted
  and the lexeme or stack the pure model asks for is longer than
  `SIZE_MAX / 2`. It does not give the partial lexeme and the position at
  which the failure happened.
- Scanner.Scanner.constructor and Buffers.Buffer.constructor require sizes
  of at least 1. `jsonny_init_scanner_s` accepts 0 (jsonny.c:437-451), but
  `calloc(0, 1)` may return a pointer to no storage, and the reset that
  follows writes its first byte (jsonny.c:98), which is undefined
  behaviour. The model does not give that case a meaning.
- `jsonny_scan` in an error state falls off the end of a non-void function
  (jsonny.c:586-587). The model returns ERROR and changes nothing, which is
  what `Dispatch.ErrorsAreSticky` states.
- Scenarios.ArrayHead, Scenarios.ArrayTail, Scenarios.ObjectHead,
  Scenarios.ObjectTail: each document's token sequence is stated in two
  halves joined at an intermediate configuration, not as a single run.

## Findings

| source | as written | input that shows it | evidently intended | confidence | as-written member | corrected member |
|---|---|---|---|---|---|---|
| jsonny.c:143 | `buf[0] = 0xf0 \| ((hsg >> 8) & 0x3)` keeps only two of the three top code-point bits | the escape `\uDBC0\uDC00` (U+100000) is written as F0 80 80 80, a malformed sequence, instead of F4 80 80 80; every pair with a code point from U+100000 to U+10FFFF is affected | mask `0x7`, so that every surrogate pair is encoded as its code point | not executed | Utf.U16sToU8 (Utf.U16sToU8Encodes, Utf.U16sToU8Examples, Lexemes.EscapeDecodes, Scenarios.PlaneSixteenEscape) | Utf.U16sToU8Fixed (Utf.U16sToU8FixedEncodes) |

The scanner model (`Lexemes.PairLex`, `Scanner.Scanner.ReadLowUnit`) keeps
`u16stou8` as written, so that it does what the C code does.
`Utf.U16sToU8Fixed` is the corrected encoder, and
`Utf.FixedAgreesBelowPlane16` shows that the two agree below U+100000.
