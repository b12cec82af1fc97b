/** The growable byte buffer behind both the lexeme text (js_str) and the
    nesting stack (js_stk): jsonny_push, jsonny_pop and jsonny_clear. The
    capacity (js_strsize / js_stksize) is the length of the array, the fill
    (js_strlen / js_stklen) is `len`. */
module Buffers {

  /** The largest size_t on a 64-bit target. */
  const SIZE_MAX: nat := 0xFFFF_FFFF_FFFF_FFFF

  class Buffer {
    var data: array<bv8>
    var len: nat

    /** The capacity is never zero (doubling zero gives zero) and never more
        than a size_t can count. */
    ghost predicate Valid()
      reads this
    {
      0 < data.Length <= SIZE_MAX && len <= data.Length
    }

    /** The bytes the buffer holds, oldest first. */
    ghost function Contents(): seq<bv8>
      reads this, data
      requires Valid()
    {
      data[..len]
    }

    /** Full, with a capacity the overflow guard refuses to double: the only
        state in which Push fails. */
    ghost predicate Exhausted(): (b: bool)
      reads this
      ensures b <==> len == data.Length && 2 * data.Length > SIZE_MAX
    {
      len == data.Length > SIZE_MAX / 2
    }

    /** The calloc of jsonny_init_scanner_s. */
    constructor (capacity: nat)
      requires 0 < capacity <= SIZE_MAX
      ensures Valid() && fresh(data)
      ensures data.Length == capacity && Contents() == []
    {
      data := new bv8[capacity];
      len := 0;
    }

    /** jsonny_push: appends `c`, doubling the capacity first when the
        buffer is full; fails, leaving everything as it was, when doubling
        would overflow a size_t. */
    method Push(c: bv8) returns (ok: bool)
      requires Valid()
      modifies this, data
      ensures Valid()
      ensures ok <==> !old(Exhausted())
      ensures ok ==> Contents() == old(Contents()) + [c]
      ensures !ok ==> data == old(data) && len == old(len) && data[..] == old(data[..])
      ensures data.Length == if old(len) < old(data.Length) || !ok then old(data.Length) else 2 * old(data.Length)
      ensures data == old(data) || fresh(data)
    {
      if len >= data.Length {
        if data.Length > SIZE_MAX / 2 {
          return false;
        }
        var grown := new bv8[data.Length * 2];
        forall i | 0 <= i < data.Length {
          grown[i] := data[i];
        }
        data := grown;
      }
      data[len] := c;
      len := len + 1;
      ok := true;
    }

    /** jsonny_pop: removes and returns the last byte (the source returns
        nothing on an empty buffer, so the model asks for a non-empty one). */
    method Pop() returns (c: bv8)
      requires Valid() && len > 0
      modifies this`len
      ensures Valid()
      ensures old(Contents()) == Contents() + [c]
    {
      len := len - 1;
      c := data[len];
    }

    /** jsonny_clear: empties the buffer and keeps its capacity. */
    method Clear()
      requires Valid()
      modifies this`len
      ensures Valid() && Contents() == []
    {
      len := 0;
    }
  }
}
