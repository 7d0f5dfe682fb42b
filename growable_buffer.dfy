/** The growable output buffer of c2tc: an array that append reallocates in batches of 64. */
module GrowableBuffer {
  import opened Newlines

  /** Growth granularity; c2tc passes 64 on every call. */
  const Batch: nat := 64

  /** The capacity the buffer holds for `n` bytes: `n` rounded up to a multiple of Batch. */
  function Capacity(n: nat): (cap: nat)
    ensures n <= cap < n + Batch
    ensures cap % Batch == 0
    ensures n % Batch == 0 ==> cap == n
  {
    (n + Batch - 1) / Batch * Batch
  }

  class OutputBuffer {
    var data: array<byte>
    var len: nat
    /** The bytes written so far. */
    ghost var contents: seq<byte>

    /** The allocation always has exactly the rounded-up capacity for `len` bytes, and its first
        `len` bytes are the ones written. */
    ghost predicate Valid()
      reads this, data
    {
      len <= data.Length && data.Length == Capacity(len) && contents == data[..len]
    }

    /** The empty buffer c2tc starts from (`dout = 0`, `doutlen = 0`). */
    constructor ()
      ensures Valid() && fresh(data)
      ensures contents == []
    {
      data := new byte[0];
      len := 0;
      contents := [];
    }

    /** append: when `len` is a multiple of Batch the array is first reallocated to
        `(1 + len / Batch) * Batch` bytes (keeping its contents), then `c` is stored at `len`. */
    method Append(c: byte)
      requires Valid()
      modifies this, data
      ensures Valid()
      ensures len == old(len) + 1
      ensures contents == old(contents) + [c]
      ensures old(len) % Batch == 0 ==> fresh(data) && data.Length == (1 + old(len) / Batch) * Batch
      ensures old(len) % Batch != 0 ==> data == old(data)
    {
      if len % Batch == 0 {
        var grown := new byte[(1 + len / Batch) * Batch];
        forall i | 0 <= i < len {
          grown[i] := data[i];
        }
        data := grown;
      }
      data[len] := c;
      len := len + 1;
      contents := contents + [c];
    }
  }
}
