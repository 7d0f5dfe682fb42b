/** Bytes of the text being transposed and the newline classifier (isnewline). */
module Newlines {

  /** One byte of the input or output buffer (C `char`, read as 0..255). */
  newtype byte = x: int | 0 <= x < 256

  const NUL: byte := 0
  const TAB: byte := 9
  const LF: byte := 10
  const CR: byte := 13
  const SPACE: byte := 32

  /** The newline conventions the program can be built for; the shipped build uses Windows. */
  datatype Os = Linux | Windows | Mac

  /** Width of the line terminator that starts at offset `i` of `c`, or 0 if none starts there.
      A CR LF pair under Windows, a lone LF under Linux, nothing under Mac.
      An offset at or past the end never starts a terminator. */
  function IsNewline(os: Os, c: seq<byte>, i: nat): (r: nat)
    ensures r <= 2
    ensures r != 0 ==> i + r <= |c|
    ensures os == Windows ==> (r != 0 <==> i + 1 < |c| && c[i] == CR && c[i + 1] == LF)
    ensures os == Windows && r != 0 ==> r == 2
    ensures os == Linux ==> (r != 0 <==> i < |c| && c[i] == LF)
    ensures os == Linux && r != 0 ==> r == 1
    ensures os == Mac ==> r == 0
  {
    if i >= |c| then 0
    else
      match os
      case Windows => if c[i] == CR && i + 1 < |c| && c[i + 1] == LF then 2 else 0
      case Linux => if c[i] == LF then 1 else 0
      case Mac => 0
  }

  /** Terminators never overlap: no terminator starts inside the bytes of another one. */
  lemma TerminatorsDisjoint(os: Os, c: seq<byte>, i: nat, d: nat)
    requires 0 < d < IsNewline(os, c, i)
    ensures IsNewline(os, c, i + d) == 0
  {
    assert os == Windows && d == 1;
    assert c[i + 1] == LF;
  }
}
