/** The FILE* the scanner reads from: a finite byte sequence and a cursor.
    fgetc returns the byte under the cursor and advances, or EOF (and stays)
    at the end; ungetc, which the scanner only ever applies to the character
    it has just read, steps the cursor back, and is a no-op for EOF. */
module Streams {
  import opened Chars

  /** What fgetc returns when the cursor is at `i`. */
  function At(data: seq<bv8>, i: nat): (c: int)
    ensures IsChar(c)
    ensures c == EOF <==> i >= |data|
  {
    if i < |data| then data[i] as int else EOF
  }

  /** Where the cursor is after fgetc at `i`. */
  function Adv(data: seq<bv8>, i: nat): (j: nat)
    requires i <= |data|
    ensures i <= j <= i + 1 && j <= |data|
    ensures j == i <==> At(data, i) == EOF
  {
    if i < |data| then i + 1 else i
  }

  class Stream {
    const data: seq<bv8>
    var pos: nat

    ghost predicate Valid()
      reads this
    {
      pos <= |data|
    }

    constructor (data: seq<bv8>)
      ensures Valid() && this.data == data && pos == 0
    {
      this.data := data;
      pos := 0;
    }

    /** fgetc */
    method Getc() returns (c: int)
      requires Valid()
      modifies this`pos
      ensures Valid()
      ensures c == At(data, old(pos)) && pos == Adv(data, old(pos))
    {
      if pos < |data| {
        c := data[pos] as int;
        pos := pos + 1;
      } else {
        c := EOF;
      }
    }

    /** ungetc of the character the last Getc returned. */
    method Ungetc(c: int)
      requires Valid()
      requires c == EOF || (0 < pos && c == data[pos - 1] as int)
      modifies this`pos
      ensures Valid()
      ensures pos == if c == EOF then old(pos) else old(pos) - 1
    {
      if c != EOF {
        pos := pos - 1;
      }
    }
  }
}
