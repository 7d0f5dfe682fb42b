/** The column sampler getcxy: the byte at column x of row y, or NUL outside that row. */
module ColumnSampler {
  import opened Newlines
  import opened LineIndexing

  /** Offset read for column `x` of row `y`: past the terminator that starts at `nl[y]`, then
      `x` bytes further. The skip is applied uniformly, row 0 included. */
  function SampleOffset(os: Os, dump: seq<byte>, nl: seq<nat>, x: nat, y: nat): nat
    requires y < |nl|
  {
    nl[y] + IsNewline(os, dump, nl[y]) + x
  }

  /** The offset lies before the next slot of the index (when there is one) and before the end. */
  predicate InRow(os: Os, dump: seq<byte>, nl: seq<nat>, x: nat, y: nat)
    requires y < |nl|
  {
    var at := SampleOffset(os, dump, nl, x, y);
    at < |dump| && (y + 1 < |nl| ==> at < nl[y + 1])
  }

  /** getcxy: NUL ("blank") for a row past the index or outside the row, otherwise the byte at
      the sample offset. The bound by the next slot applies to every row but the last. */
  function GetCxy(os: Os, dump: seq<byte>, nl: seq<nat>, x: nat, y: nat): (r: byte)
    ensures y >= |nl| ==> r == NUL
    ensures y < |nl| && InRow(os, dump, nl, x, y) ==> r == dump[SampleOffset(os, dump, nl, x, y)]
    ensures y < |nl| && !InRow(os, dump, nl, x, y) ==> r == NUL
  {
    if y >= |nl| then NUL
    else
      var at := nl[y] + IsNewline(os, dump, nl[y]) + x;
      if y + 1 < |nl| && at >= nl[y + 1] then NUL
      else if at >= |dump| then NUL
      else dump[at]
  }

  /** getcxy as written: for the last row (`y == nlcount - 1`) the test `y < nlcount` holds, so the
      next-slot bound reads `nl[nlcount]`, one past the array; `past` stands for whatever is there. */
  function GetCxyAsWritten(os: Os, dump: seq<byte>, nl: seq<nat>, x: nat, y: nat, past: int): (r: byte)
    requires y < |nl|
    ensures y + 1 < |nl| ==> r == GetCxy(os, dump, nl, x, y)
    ensures y + 1 == |nl| && SampleOffset(os, dump, nl, x, y) >= past ==> r == NUL
  {
    var at := nl[y] + IsNewline(os, dump, nl[y]) + x;
    var next := if y + 1 < |nl| then nl[y + 1] else past;
    if at >= next then NUL
    else if at >= |dump| then NUL
    else dump[at]
  }

  /** On "ab" CR LF "cd" the last row's first sample depends on the word past the index: if it
      holds 0, getcxy as written returns NUL where the byte is 'c'. */
  lemma LastRowReadsPastIndex()
    ensures GetCxyAsWritten(Windows, [97, 98, CR, LF, 99, 100], [0, 2], 0, 1, 0) == NUL
    ensures GetCxy(Windows, [97, 98, CR, LF, 99, 100], [0, 2], 0, 1) == 99
  {
    assert IsNewline(Windows, [97, 98, CR, LF, 99, 100], 2) == 2;
  }

  /** Over the index c2tc builds, a sample never reads a byte of a line terminator: every
      terminator that starts at or before the sample offset ends at or before it. */
  lemma SampleOutsideTerminators(os: Os, dump: seq<byte>, x: nat, y: nat, t: nat)
    requires y < |LineIndex(os, dump)|
    requires InRow(os, dump, LineIndex(os, dump), x, y)
    requires t <= SampleOffset(os, dump, LineIndex(os, dump), x, y)
    ensures t + IsNewline(os, dump, t) <= SampleOffset(os, dump, LineIndex(os, dump), x, y)
  {
    var nl := LineIndex(os, dump);
    var at := SampleOffset(os, dump, nl, x, y);
    LineIndexShape(os, dump);
    if t == at {
      if at > nl[y] {
        NoTerminatorBetween(os, dump, y, at);
      }
    } else if t + 1 == at {
      // t < nl[y] cannot happen: then at == nl[y], so nl[y] starts no terminator, which
      // only slot 0 allows, and nothing precedes offset 0
      if t > nl[y] {
        NoTerminatorBetween(os, dump, y, t);
      }
    }
  }
}
