/** struct jsonny_scanner_t and the functions of jsonny.c that drive it:
    the sub-scanners that read one lexeme into js_str, and jsonny_scan,
    which skips white space, dispatches on js_state and keeps the nesting
    stack js_stk. Every method is proved to do what the matching function
    of Lexemes or Dispatch says, except where a push runs out of memory:
    then it returns ERROR with js_state set to JSONNY_ERR_MEM and a buffer
    that the overflow guard refuses to grow, which happens only when the
    lexeme or the stack the pure model asks for is longer than half of
    SIZE_MAX. */
module Scanner {
  import opened Chars
  import opened Utf
  import opened Buffers
  import opened Streams
  import opened Tokens
  import opened Lexemes
  import opened Dispatch

  datatype Option<T> = None | Some(value: T)

  class Scanner {
    /** js_state */
    var state: State
    /** js_str with js_strlen and js_strsize */
    const str: Buffer
    /** js_stk with js_stklen and js_stksize */
    const stk: Buffer

    ghost predicate Valid()
      reads this, str, stk, stk.data
    {
      str != stk && str.data != stk.data && str.Valid() && stk.Valid() && AllOpeners(stk.Contents())
    }

    /** The configuration the pure model of jsonny_scan works on. */
    ghost function Cfg(pos: nat): Config
      reads this, str, str.data, stk, stk.data
      requires str.Valid() && stk.Valid()
    {
      Config(state, stk.Contents(), str.Contents(), pos)
    }

    /** A sub-scanner ended as `r` says: token `tok` with the state left as
        it was (`s0`), or ERROR with the error `r` names; the lexeme buffer
        holds what `r` pushed and the stream is where `r` left it. */
    ghost predicate Follows(t: TokenType, r: Lexed, tok: TokenType, s0: State, pos: nat)
      reads this, str, str.data
    {
      str.Valid() && str.Contents() == r.text && pos == r.next &&
      match r.status
      case Accepted => t == tok && state == s0
      case Rejected(e) => t == Error && state == Failed(e)
    }

    /** A push onto the lexeme buffer failed. */
    ghost predicate OutOfMemory(t: TokenType)
      reads this, str
    {
      t == Error && state == Failed(ErrMem) && str.Exhausted()
    }

    /** A push onto the lexeme buffer failed while it was being filled
        with `text`, which does not fit: the overflow guard refuses only a
        buffer of more than SIZE_MAX / 2 bytes. */
    ghost predicate OutOfMemoryOn(t: TokenType, text: seq<bv8>)
      reads this, str
    {
      OutOfMemory(t) && |text| > SIZE_MAX / 2
    }

    /** jsonny_init_scanner_s, with calloc always succeeding, followed by
        jsonny_reset_scanner. */
    constructor (strsize: nat, stksize: nat)
      requires 0 < strsize <= SIZE_MAX && 0 < stksize <= SIZE_MAX
      ensures Valid() && fresh(str) && fresh(stk) && fresh(str.data) && fresh(stk.data)
      ensures Cfg(0) == Dispatch.Reset(0)
      ensures str.data.Length == strsize && stk.data.Length == stksize
    {
      state := ExpValue;
      str := new Buffer(strsize);
      stk := new Buffer(stksize);
    }

    /** jsonny_reset_scanner: back to the configuration of a new scanner;
        the capacities are kept. */
    method Reset()
      requires Valid()
      modifies this, str, stk
      ensures Valid() && Cfg(0) == Dispatch.Reset(0)
      ensures str.data == old(str.data) && stk.data == old(stk.data)
    {
      state := ExpValue;
      str.Clear();
      stk.Clear();
    }

    // -------------------------------------------------------------------
    // \uXXXX

    /** The loop `for (i = 0; i < 4; i++)` of jsonny_scan_utf16_escape with
        the strtol that follows it: four hexadecimal digits and the unit
        they spell, or the first character that is not one. */
    method ReadHexUnit(st: Stream) returns (ok: bool, unit: bv16)
      requires st.Valid()
      modifies st`pos
      ensures st.Valid()
      ensures var h := ReadHex4(st.data, old(st.pos));
        (ok <==> h.HexOk?) && (ok ==> unit == h.unit) && st.pos == h.next
    {
      hide ShiftIn, HexValue;
      ghost var start := st.pos;
      var acc: bv16 := 0;
      var i := 0;
      while i < 4
        invariant 0 <= i <= 4 && st.Valid() && st.pos == start + i
        invariant ReadHex4(st.data, start) == HexDigits(st.data, st.pos, 4 - i, acc)
      {
        HexDigitsStep(st.data, st.pos, 4 - i, acc);
        var c := st.Getc();
        if !IsXDigit(c) {
          return false, 0;
        }
        acc := ShiftIn(acc, c);
        i := i + 1;
      }
      return true, acc;
    }

    /** The reading half of jsonny_scan_utf16_escape, called just after
        `\u`: the UTF-8 bytes of the unit or of the surrogate pair (none
        when the pair is not high then low), or the error that stopped it. */
    method ReadUtf16Escape(st: Stream) returns (err: Option<ErrorKind>, bytes: seq<bv8>)
      requires st.Valid()
      modifies st`pos
      ensures st.Valid()
      ensures var r := EscapeLex(st.data, old(st.pos));
        st.pos == r.next &&
        (err.None? ==> r.status == (if bytes == [] then Rejected(ErrUEnc) else Accepted) && r.text == bytes) &&
        (err.Some? ==> r.status == Rejected(err.value) && r.text == [])
    {
      var ok, c1 := ReadHexUnit(st);
      if !ok {
        return Some(ErrUBadC), [];
      }
      if IsSurrogate(c1) {
        err, bytes := ReadLowUnit(st, c1);
      } else {
        err, bytes := None, U16ToU8(c1);
      }
    }

    /** The surrogate branch of jsonny_scan_utf16_escape: `\u`, the
        second unit, and the bytes of the pair. */
    method ReadLowUnit(st: Stream, c1: bv16) returns (err: Option<ErrorKind>, bytes: seq<bv8>)
      requires st.Valid()
      modifies st`pos
      ensures st.Valid()
      ensures var r := PairLex(st.data, old(st.pos), c1);
        st.pos == r.next &&
        (err.None? ==> r.status == (if bytes == [] then Rejected(ErrUEnc) else Accepted) && r.text == bytes) &&
        (err.Some? ==> r.status == Rejected(err.value) && r.text == [])
    {
      var c := st.Getc();
      if c != BACKSLASH {
        return Some(ErrUEnc), [];
      }
      c := st.Getc();
      if c != LOWER_U {
        return Some(ErrUEnc), [];
      }
      var ok, c2 := ReadHexUnit(st);
      if !ok {
        return Some(ErrUBadC), [];
      }
      err, bytes := None, U16sToU8(c1, c2);
    }

    /** The loop that pushes `bytes` onto js_str one by one, stopping at
        the first push that fails. */
    method PushAll(bytes: seq<bv8>) returns (ok: bool)
      requires str.Valid()
      modifies str, str.data
      ensures str.Valid() && (str.data == old(str.data) || fresh(str.data))
      ensures ok ==> str.Contents() == old(str.Contents()) + bytes
      ensures !ok ==> str.Exhausted() && 0 < |bytes| && |old(str.Contents())| + |bytes| > SIZE_MAX / 2 + 1
    {
      ghost var before := str.Contents();
      for i := 0 to |bytes|
        invariant str.Valid() && (str.data == old(str.data) || fresh(str.data))
        invariant str.Contents() == before + bytes[..i]
      {
        ok := str.Push(bytes[i]);
        if !ok {
          return;
        }
      }
      assert bytes[..|bytes|] == bytes;
      ok := true;
    }

    /** jsonny_scan_utf16_escape, called just after `\u`: pushes the UTF-8
        bytes of the unit or of the surrogate pair and returns how many;
        returns 0 with js_state set on an error. */
    method ScanUtf16Escape(st: Stream) returns (size: nat)
      requires str.Valid() && st.Valid()
      modifies this, str, str.data, st`pos
      ensures str.Valid() && st.Valid() && (str.data == old(str.data) || fresh(str.data))
      ensures var r := EscapeLex(st.data, old(st.pos));
        st.pos == r.next &&
        (((r.status == Accepted ==>
             size == |r.text| > 0 && state == old(state) && str.Contents() == old(str.Contents()) + r.text) &&
          (r.status.Rejected? ==> size == 0 && state == Failed(r.status.err) && str.Contents() == old(str.Contents()))) ||
         (size == 0 && r.status == Accepted && OutOfMemoryOn(Error, old(str.Contents()) + r.text)))
    {
      var err, bytes := ReadUtf16Escape(st);
      if err.Some? {
        state := Failed(err.value);
        return 0;
      }
      size := |bytes|;
      var ok := PushAll(bytes);
      if !ok {
        state := Failed(ErrMem);
        return 0;
      }
      if size == 0 {
        state := Failed(ErrUEnc);
      }
    }

    // -------------------------------------------------------------------
    // Strings

    /** jsonny_scan_string: clears js_str, then reads a string literal
        into it. */
    method ScanString(st: Stream) returns (t: TokenType)
      requires str.Valid() && st.Valid()
      modifies this, str, str.data, st`pos
      ensures str.Valid() && st.Valid() && (str.data == old(str.data) || fresh(str.data))
      ensures var r := StringLex(st.data, old(st.pos));
        Follows(t, r, String, old(state), st.pos) || OutOfMemoryOn(t, r.text)
    {
      str.Clear();
      var c := st.Getc();
      if c == EOF || c != QUOTE {
        state := Failed(ErrStr);
        return Error;
      }
      t := ScanStringBody(st);
    }

    /** The loop of jsonny_scan_string, entered just after the opening
        quote with js_str empty. */
    method ScanStringBody(st: Stream) returns (t: TokenType)
      requires str.Valid() && st.Valid() && str.Contents() == []
      modifies this, str, str.data, st`pos
      ensures str.Valid() && st.Valid() && (str.data == old(str.data) || fresh(str.data))
      ensures var r := StringBody(st.data, old(st.pos));
        Follows(t, r, String, old(state), st.pos) || OutOfMemoryOn(t, r.text)
    {
      ghost var data, start := st.data, st.pos;
      ghost var k := st.pos;
      ghost var pushed: seq<bv8> := [];
      var c := st.Getc();
      while c != EOF && c != QUOTE
        invariant str.Valid() && st.Valid() && (str.data == old(str.data) || fresh(str.data))
        invariant start <= k <= |data| && c == At(data, k) && st.pos == Adv(data, k)
        invariant state == old(state) && str.Contents() == pushed
        invariant StringBody(data, start) == Prepend(pushed, StringBody(data, k))
        decreases |data| - k
      {
        ghost var turn := StringStep(data, k);
        var more := ScanStringChar(st, c, k);
        if !more {
          if turn.More? {
            assert StringBody(data, k) == Prepend(turn.text, StringBody(data, turn.next));
          } else {
            assert StringBody(data, k) == turn.result;
          }
          return Error;
        }
        assert StringBody(data, k) == Prepend(turn.text, StringBody(data, turn.next));
        PrependTwice(pushed, turn.text, StringBody(data, turn.next));
        pushed := pushed + turn.text;
        k := turn.next;
        c := st.Getc();
      }
      if c == QUOTE {
        assert StringBody(data, k) == Lexed(Accepted, [], k + 1);
        return String;
      }
      assert StringBody(data, k) == Lexed(Rejected(ErrStr), [], |data|);
      state := Failed(ErrStr);
      return Error;
    }

    /** One turn of the loop of jsonny_scan_string, entered with the
        character `c` at position `k` just read: pushes the byte it stands
        for, or the bytes of a \u escape, and returns true; or sets js_state
        to the error and returns false. */
    method ScanStringChar(st: Stream, c: int, ghost k: nat) returns (more: bool)
      requires str.Valid() && st.Valid() && k < |st.data|
      requires c == At(st.data, k) && c != QUOTE && st.pos == k + 1
      modifies this, str, str.data, st`pos
      ensures str.Valid() && st.Valid() && (str.data == old(str.data) || fresh(str.data))
      ensures var turn := StringStep(st.data, k);
        more ==> turn.More? && state == old(state) && str.Contents() == old(str.Contents()) + turn.text && st.pos == turn.next
      ensures var turn := StringStep(st.data, k);
        !more ==> ((turn.More? && OutOfMemoryOn(Error, old(str.Contents()) + turn.text) && st.pos == turn.next) ||
          (turn.Done? && turn.result.status.Rejected? && state == Failed(turn.result.status.err) &&
           str.Contents() == old(str.Contents()) && st.pos == turn.result.next))
    {
      var ok := true;
      if c == BACKSLASH {
        var e := st.Getc();
        if IsSimpleEscape(e) {
          ok := str.Push(Unescape(e));
        } else if e == LOWER_U {
          var n := ScanUtf16Escape(st);
          return n != 0;
        } else {
          state := Failed(ErrEsc);
          return false;
        }
      } else {
        ok := str.Push(c as bv8);
      }
      if !ok {
        state := Failed(ErrMem);
        return false;
      }
      return true;
    }

    // -------------------------------------------------------------------
    // Numbers

    /** A push onto js_str that sets js_state to JSONNY_ERR_MEM when it
        fails, as every push of the sub-scanners does. */
    method PushChar(c: int) returns (ok: bool)
      requires str.Valid() && 0 <= c < 256
      modifies this, str, str.data
      ensures str.Valid() && (str.data == old(str.data) || fresh(str.data))
      ensures ok <==> !old(str.Exhausted())
      ensures ok ==> state == old(state) && str.Contents() == old(str.Contents()) + [c as bv8]
      ensures !ok ==> OutOfMemory(Error) && str.Contents() == old(str.Contents())
    {
      ok := str.Push(c as bv8);
      if !ok {
        state := Failed(ErrMem);
      }
    }

    /** jsonny_scan_number has read the number that began at `start` up to
        `k`, pushing every byte, and the automaton is in state `q`; `c` is
        the character at `k`, already read. */
    ghost predicate Reading(st: Stream, start: nat, c: int, k: nat, q: NumState)
      reads this, str, str.data, st
    {
      str.Valid() && st.Valid() && start <= k <= |st.data| &&
      c == At(st.data, k) && st.pos == Adv(st.data, k) &&
      str.Contents() == st.data[start..k] &&
      q != NDead && Munch(st.data, start, NStart) == Munch(st.data, k, q)
    }

    /** Push `c`, which the automaton accepts, and read the next character. */
    method Take(st: Stream, c: int, ghost start: nat, ghost k: nat, ghost q: NumState) returns (ok: bool, next: int)
      requires Reading(st, start, c, k, q) && NumStep(q, c) != NDead
      modifies this, str, str.data, st`pos
      ensures str.Valid() && st.Valid() && (str.data == old(str.data) || fresh(str.data))
      ensures ok ==> state == old(state) && Reading(st, start, next, k + 1, NumStep(q, c))
      ensures !ok ==> OutOfMemoryOn(Error, NumberLex(st.data, start).text)
    {
      next := c;
      ok := PushChar(c);
      if !ok {
        MunchPast(st.data, start, k, q);
        return;
      }
      SliceSnoc(st.data, start, k);
      assert Munch(st.data, k, q) == Munch(st.data, k + 1, NumStep(q, c));
      next := st.Getc();
    }

    /** `while (isdigit(c))`: push digits while the automaton loops on them. */
    method TakeDigits(st: Stream, c: int, ghost start: nat, ghost k: nat, ghost q: NumState)
      returns (ok: bool, next: int, ghost k': nat)
      requires Reading(st, start, c, k, q) && q in {NInt, NFrac, NExpDigits}
      modifies this, str, str.data, st`pos
      ensures str.Valid() && st.Valid() && (str.data == old(str.data) || fresh(str.data))
      ensures ok ==> state == old(state) && Reading(st, start, next, k', q) && !IsDigit(next)
      ensures !ok ==> OutOfMemoryOn(Error, NumberLex(st.data, start).text)
    {
      next, k' := c, k;
      while IsDigit(next)
        invariant str.Valid() && (str.data == old(str.data) || fresh(str.data))
        invariant state == old(state) && Reading(st, start, next, k', q)
        decreases |st.data| - k'
      {
        ok, next := Take(st, next, start, k', q);
        if !ok {
          return;
        }
        k' := k' + 1;
      }
      ok := true;
    }

    /** The number is not one: JSONNY_ERR_NUM, with the character that
        stopped it consumed. */
    method RejectNumber(st: Stream, c: int, ghost start: nat, ghost k: nat, ghost q: NumState)
      requires Reading(st, start, c, k, q) && NumStep(q, c) == NDead && !Accepting(q)
      modifies this
      ensures Follows(Error, NumberLex(st.data, start), Number, old(state), st.pos)
    {
      NumberEnds(st.data, start, k, q);
      state := Failed(ErrNum);
    }

    /** The sign and the integer part of jsonny_scan_number. */
    method ScanIntPart(st: Stream, c: int, ghost start: nat) returns (go: bool, next: int, ghost k: nat, ghost q: NumState)
      requires Reading(st, start, c, start, NStart)
      modifies this, str, str.data, st`pos
      ensures str.Valid() && st.Valid() && (str.data == old(str.data) || fresh(str.data))
      ensures go ==> state == old(state) && Reading(st, start, next, k, q) && q in {NZero, NInt} && NumStep(q, next) in {NDead, NDot, NExpMark}
      ensures var r := NumberLex(st.data, start);
        !go ==> Follows(Error, r, Number, old(state), st.pos) || OutOfMemoryOn(Error, r.text)
    {
      next, k, q := c, start, NStart;
      if next == MINUS {
        go, next := Take(st, next, start, k, q);
        if !go {
          return;
        }
        k, q := k + 1, NMinus;
      }
      if next == ZERO {
        go, next := Take(st, next, start, k, q);
        k, q := k + 1, NZero;
      } else if IsDigit(next) {
        go, next := Take(st, next, start, k, q);
        if !go {
          return;
        }
        go, next, k := TakeDigits(st, next, start, k + 1, NInt);
        q := NInt;
      } else {
        RejectNumber(st, next, start, k, q);
        go := false;
      }
    }

    /** The fraction of jsonny_scan_number. */
    method ScanFracPart(st: Stream, c: int, ghost start: nat, ghost k: nat, ghost q: NumState)
      returns (go: bool, next: int, ghost k': nat, ghost q': NumState)
      requires Reading(st, start, c, k, q) && q in {NZero, NInt} && NumStep(q, c) in {NDead, NDot, NExpMark}
      modifies this, str, str.data, st`pos
      ensures str.Valid() && st.Valid() && (str.data == old(str.data) || fresh(str.data))
      ensures go ==> state == old(state) && Reading(st, start, next, k', q') && q' in {NZero, NInt, NFrac} && NumStep(q', next) in {NDead, NExpMark}
      ensures var r := NumberLex(st.data, start);
        !go ==> Follows(Error, r, Number, old(state), st.pos) || OutOfMemoryOn(Error, r.text)
    {
      next, k', q' := c, k, q;
      go := true;
      if next == DOT {
        go, next := Take(st, next, start, k', q');
        if !go {
          return;
        }
        k', q' := k' + 1, NDot;
        if !IsDigit(next) {
          RejectNumber(st, next, start, k', q');
          return false, next, k', q';
        }
        go, next := Take(st, next, start, k', q');
        if !go {
          return;
        }
        go, next, k' := TakeDigits(st, next, start, k' + 1, NFrac);
        q' := NFrac;
      }
    }

    /** The exponent of jsonny_scan_number. */
    method ScanExpPart(st: Stream, c: int, ghost start: nat, ghost k: nat, ghost q: NumState)
      returns (go: bool, next: int, ghost k': nat, ghost q': NumState)
      requires Reading(st, start, c, k, q) && q in {NZero, NInt, NFrac} && NumStep(q, c) in {NDead, NExpMark}
      modifies this, str, str.data, st`pos
      ensures str.Valid() && st.Valid() && (str.data == old(str.data) || fresh(str.data))
      ensures go ==> state == old(state) && Reading(st, start, next, k', q') && Accepting(q') && NumStep(q', next) == NDead
      ensures var r := NumberLex(st.data, start);
        !go ==> Follows(Error, r, Number, old(state), st.pos) || OutOfMemoryOn(Error, r.text)
    {
      next, k', q' := c, k, q;
      go := true;
      if next == LOWER_E || next == UPPER_E {
        go, next := Take(st, next, start, k', q');
        if !go {
          return;
        }
        go, next, k', q' := ScanExpDigits(st, next, start, k' + 1);
      }
    }

    /** The exponent of jsonny_scan_number after its `e` or `E`: an
        optional sign, then at least one digit. */
    method ScanExpDigits(st: Stream, c: int, ghost start: nat, ghost k: nat)
      returns (go: bool, next: int, ghost k': nat, ghost q': NumState)
      requires Reading(st, start, c, k, NExpMark)
      modifies this, str, str.data, st`pos
      ensures str.Valid() && st.Valid() && (str.data == old(str.data) || fresh(str.data))
      ensures go ==> state == old(state) && Reading(st, start, next, k', q') && q' == NExpDigits && !IsDigit(next)
      ensures var r := NumberLex(st.data, start);
        !go ==> Follows(Error, r, Number, old(state), st.pos) || OutOfMemoryOn(Error, r.text)
    {
      next, k', q' := c, k, NExpMark;
      if next == PLUS || next == MINUS {
        go, next := Take(st, next, start, k', q');
        if !go {
          return;
        }
        k', q' := k' + 1, NExpSign;
      }
      if !IsDigit(next) {
        RejectNumber(st, next, start, k', q');
        return false, next, k', q';
      }
      go, next := Take(st, next, start, k', q');
      if !go {
        return;
      }
      go, next, k' := TakeDigits(st, next, start, k' + 1, NExpDigits);
      q' := NExpDigits;
    }

    /** jsonny_scan_number: clears js_str, then reads the longest prefix
        of a number into it; on success the character after it is pushed
        back. */
    method ScanNumber(st: Stream) returns (t: TokenType)
      requires str.Valid() && st.Valid()
      modifies this, str, str.data, st`pos
      ensures str.Valid() && st.Valid() && (str.data == old(str.data) || fresh(str.data))
      ensures var r := NumberLex(st.data, old(st.pos));
        Follows(t, r, Number, old(state), st.pos) || OutOfMemoryOn(t, r.text)
    {
      str.Clear();
      ghost var start := st.pos;
      var c := st.Getc();
      var go;
      ghost var k: nat, q: NumState;
      go, c, k, q := ScanIntPart(st, c, start);
      if !go {
        return Error;
      }
      go, c, k, q := ScanFracPart(st, c, start, k, q);
      if !go {
        return Error;
      }
      go, c, k, q := ScanExpPart(st, c, start, k, q);
      if !go {
        return Error;
      }
      t := AcceptNumber(st, c, start, k, q);
    }

    /** The number is complete: the character that stopped it goes back
        to the stream. */
    method AcceptNumber(st: Stream, c: int, ghost start: nat, ghost k: nat, ghost q: NumState) returns (t: TokenType)
      requires Reading(st, start, c, k, q) && NumStep(q, c) == NDead && Accepting(q)
      modifies st`pos
      ensures st.Valid() && Follows(t, NumberLex(st.data, start), Number, state, st.pos)
    {
      NumberEnds(st.data, start, k, q);
      st.Ungetc(c);
      return Number;
    }

    // -------------------------------------------------------------------
    // true, false, null

    /** jsonny_scan_primitive: clears js_str, reads |target| characters
        into it (stopping with JSONNY_ERR_PRIM at EOF), and returns `tok`
        when they are the target (strncmp), JSONNY_ERR_PRIM otherwise. */
    method ScanPrimitive(st: Stream, target: seq<bv8>, tok: TokenType) returns (t: TokenType)
      requires str.Valid() && st.Valid()
      modifies this, str, str.data, st`pos
      ensures str.Valid() && st.Valid() && (str.data == old(str.data) || fresh(str.data))
      ensures var r := PrimLex(st.data, old(st.pos), target);
        Follows(t, r, tok, old(state), st.pos) || OutOfMemoryOn(t, r.text)
    {
      hide PrimLex;
      str.Clear();
      ghost var start := st.pos;
      for i := 0 to |target|
        invariant str.Valid() && st.Valid() && (str.data == old(str.data) || fresh(str.data))
        invariant state == old(state) && start + i <= |st.data| && st.pos == start + i
        invariant str.Contents() == st.data[start..start + i]
      {
        var c := st.Getc();
        if c == EOF {
          assert st.data[start..start + i] == st.data[start..];
          state := Failed(ErrPrim);
          return Error;
        }
        var ok := PushChar(c);
        if !ok {
          PrimLexPast(st.data, start, start + i, target);
          return Error;
        }
        SliceSnoc(st.data, start, start + i);
      }
      assert PrimLex(st.data, start, target).text == str.Contents();
      if str.data[..str.len] == target {
        return tok;
      }
      state := Failed(ErrPrim);
      return Error;
    }

    /** jsonny_scan_true */
    method ScanTrue(st: Stream) returns (t: TokenType)
      requires str.Valid() && st.Valid()
      modifies this, str, str.data, st`pos
      ensures str.Valid() && st.Valid() && (str.data == old(str.data) || fresh(str.data))
      ensures Follows(t, PrimLex(st.data, old(st.pos), TRUE_TEXT), True, old(state), st.pos)
    {
      t := ScanPrimitive(st, TRUE_TEXT, True);
    }

    /** jsonny_scan_false */
    method ScanFalse(st: Stream) returns (t: TokenType)
      requires str.Valid() && st.Valid()
      modifies this, str, str.data, st`pos
      ensures str.Valid() && st.Valid() && (str.data == old(str.data) || fresh(str.data))
      ensures Follows(t, PrimLex(st.data, old(st.pos), FALSE_TEXT), False, old(state), st.pos)
    {
      t := ScanPrimitive(st, FALSE_TEXT, False);
    }

    /** jsonny_scan_null */
    method ScanNull(st: Stream) returns (t: TokenType)
      requires str.Valid() && st.Valid()
      modifies this, str, str.data, st`pos
      ensures str.Valid() && st.Valid() && (str.data == old(str.data) || fresh(str.data))
      ensures Follows(t, PrimLex(st.data, old(st.pos), NULL_TEXT), Null, old(state), st.pos)
    {
      t := ScanPrimitive(st, NULL_TEXT, Null);
    }

    // -------------------------------------------------------------------
    // jsonny_scan

    /** `do { c = fgetc(stream); } while (isspace(c))`: the first character
        that is not white space, consumed. */
    method SkipSpaces(st: Stream) returns (c: int)
      requires st.Valid()
      modifies st`pos
      ensures st.Valid()
      ensures var p := SkipSpace(st.data, old(st.pos)); c == At(st.data, p) && st.pos == Adv(st.data, p)
    {
      ghost var k := st.pos;
      c := st.Getc();
      while IsSpace(c)
        invariant st.Valid() && k <= |st.data| && c == At(st.data, k) && st.pos == Adv(st.data, k)
        invariant SkipSpace(st.data, old(st.pos)) == SkipSpace(st.data, k)
        decreases |st.data| - k
      {
        k := k + 1;
        c := st.Getc();
      }
    }

    /** The call ended as the pure model `r` of jsonny_scan says, or a push
        onto one of the two buffers failed because the lexeme or the stack
        that `r` asks for is longer than the overflow guard allows. */
    ghost predicate Stepped(t: TokenType, r: Step, pos: nat)
      reads this, str, str.data, stk, stk.data
    {
      Valid() &&
      ((t == r.tok && Cfg(pos) == r.cfg) ||
       (t == Error && state == Failed(ErrMem) &&
        ((str.Exhausted() && |r.cfg.lexeme| > SIZE_MAX / 2) ||
         (stk.Exhausted() && |r.cfg.stack| > SIZE_MAX / 2))))
    }

    /** jsonny_scan: the next token, with the configuration updated as
        Dispatch.ScanStep says. */
    method Scan(st: Stream) returns (t: TokenType)
      requires Valid() && st.Valid()
      modifies this, str, str.data, stk, stk.data, st`pos
      ensures st.Valid() && Stepped(t, ScanStep(old(Cfg(st.pos)), st.data), st.pos)
      ensures (str.data == old(str.data) || fresh(str.data)) && (stk.data == old(stk.data) || fresh(stk.data))
      ensures |st.data| <= SIZE_MAX / 2 && |old(str.Contents())| <= SIZE_MAX / 2 && |old(stk.Contents())| < SIZE_MAX / 2 ==>
        var r := ScanStep(old(Cfg(st.pos)), st.data); t == r.tok && Cfg(st.pos) == r.cfg
    {
      ghost var c0 := Cfg(st.pos);
      ScanStepSkipsSpace(c0, st.data);
      var c := SkipSpaces(st);
      st.Ungetc(c);
      if state == ExpKey {
        t := ScanKey(st);
      } else if state == ExpSepOrEnd {
        t := ScanSepOrEnd(st);
      } else if state == ExpValue {
        t := ScanValue(st, c);
      } else {
        t := Error;
      }
      ScanStepSizes(c0, st.data);
    }

    /** jsonny_scan in JSONNY_EXP_KEY, at a character that is not white
        space: a string, then a colon after optional white space. */
    method ScanKey(st: Stream) returns (t: TokenType)
      requires Valid() && st.Valid() && state == ExpKey && !IsSpace(At(st.data, st.pos))
      modifies this, str, str.data, st`pos
      ensures st.Valid() && Stepped(t, ScanStep(old(Cfg(st.pos)), st.data), st.pos)
      ensures str.data == old(str.data) || fresh(str.data)
    {
      t := ScanString(st);
      if t == Error {
        return;
      }
      var c := SkipSpaces(st);
      if c != COLON {
        state := Failed(ErrKey);
        return Error;
      }
      state := ExpValue;
      return Key;
    }

    /** jsonny_scan in JSONNY_EXP_SEP_OR_END, at a character that is not
        white space: a comma, a closer that pops the stack, or the end. */
    method ScanSepOrEnd(st: Stream) returns (t: TokenType)
      requires Valid() && st.Valid() && state == ExpSepOrEnd && !IsSpace(At(st.data, st.pos))
      modifies this, stk`len, st`pos
      ensures var r := ScanStep(old(Cfg(st.pos)), st.data);
        st.Valid() && Valid() && t == r.tok && Cfg(st.pos) == r.cfg
    {
      var c := st.Getc();
      if c == COMMA {
        if stk.len > 0 {
          if stk.data[stk.len - 1] == OPEN_ARRAY {
            state := ExpValue;
          } else {
            state := ExpKey;
          }
          return Sep;
        } else {
          state := Failed(ErrSep);
          return Error;
        }
      } else if c == RBRACKET || c == RBRACE {
        if stk.len == 0 {
          state := Failed(ErrDlm);
          return Error;
        }
        var d := stk.Pop();
        if (c == RBRACKET && d != OPEN_ARRAY) || (c == RBRACE && d != OPEN_OBJECT) {
          state := Failed(ErrDlm);
          return Error;
        }
        if c == RBRACKET {
          return ArrayEnd;
        } else {
          return ObjectEnd;
        }
      } else if c == EOF {
        if stk.len == 0 {
          return Eof;
        } else {
          state := Failed(ErrEof);
          return Error;
        }
      } else {
        state := Failed(ErrBadC);
        return Error;
      }
    }

    /** jsonny_scan in JSONNY_EXP_VALUE, with `c`, the first character that
        is not white space, pushed back: the sub-scanner it selects, or a
        push of the opener onto js_stk. */
    method ScanValue(st: Stream, c: int) returns (t: TokenType)
      requires Valid() && st.Valid() && state == ExpValue
      requires c == At(st.data, st.pos) && !IsSpace(c)
      modifies this, str, str.data, stk, stk.data, st`pos
      ensures st.Valid() && Stepped(t, ScanStep(old(Cfg(st.pos)), st.data), st.pos)
      ensures (str.data == old(str.data) || fresh(str.data)) && (stk.data == old(stk.data) || fresh(stk.data))
    {
      state := ExpSepOrEnd;
      if c == LOWER_T {
        t := ScanTrue(st);
      } else if c == LOWER_F {
        t := ScanFalse(st);
      } else if c == LOWER_N {
        t := ScanNull(st);
      } else if c == QUOTE {
        t := ScanString(st);
      } else if c == LBRACKET || c == LBRACE {
        t := ScanOpener(st, c);
      } else if c == MINUS || IsDigit(c) {
        t := ScanNumber(st);
      } else {
        state := Failed(ErrBadC);
        t := Error;
      }
    }

    /** The `[` and `{` cases of jsonny_scan: the opener is read and pushed
        onto js_stk. */
    method ScanOpener(st: Stream, c: int) returns (t: TokenType)
      requires Valid() && st.Valid()
      requires (c == LBRACKET || c == LBRACE) && c == At(st.data, st.pos)
      modifies this, stk, stk.data, st`pos
      ensures Valid() && st.Valid() && (stk.data == old(stk.data) || fresh(stk.data))
      ensures st.Valid() && st.pos == old(st.pos) + 1 && str.Contents() == old(str.Contents())
      ensures t == ArrayStart ==> c == LBRACKET && state == ExpValue && stk.Contents() == old(stk.Contents()) + [OPEN_ARRAY]
      ensures t == ObjectStart ==> c == LBRACE && state == ExpKey && stk.Contents() == old(stk.Contents()) + [OPEN_OBJECT]
      ensures t != ArrayStart && t != ObjectStart ==>
        t == Error && state == Failed(ErrMem) && old(stk.Exhausted()) && stk.Exhausted() && stk.Contents() == old(stk.Contents())
    {
      var b := st.Getc();
      var ok := stk.Push(b as bv8);
      if !ok {
        state := Failed(ErrMem);
        return Error;
      }
      if b == LBRACKET {
        state := ExpValue;
        return ArrayStart;
      } else {
        state := ExpKey;
        return ObjectStart;
      }
    }
  }
}
