# Tiltedc transposer in Dafny

Tiltedc turns a text file's rows into columns. `c2tc` reads the whole file, builds an index of
its line terminators, measures the longest line, and walks the text column by column. Each
column becomes one output line. Blank samples are held back as pending spaces and written only
when a later non-blank in the same column needs them. Every output line ends in CR LF.

The model follows `main.c`, module by module:

- `Newlines` — bytes, the `Os` conventions, the build setting (Windows) and `isnewline`
  (`IsNewline`).
- `LineIndexing` — the two passes that build `nl`. It holds the method `BuildLineIndex` over an
  `array<nat>`, the pure index `LineIndex` it is proved against, and the index's properties.
- `ColumnSampler` — `getcxy` (`GetCxy`). It also holds the code as written for the last row,
  `GetCxyAsWritten` (see Findings).
- `GrowableBuffer` — `append`, as the class `OutputBuffer`. The class holds an `array<byte>`
  and `len`, and reallocates in batches of 64.
- `Transposer` — `c2tc` without file I/O:
  - the methods `ComputeLongest`, `AppendSpaces`, `AppendSample`, `AppendColumn` and
    `Transpose`, each proved against pure functions (`Longest`, `OutputLine`, `ExpectedOutput`);
  - lemmas saying what those functions mean.
- `GridRoundTrip` — a theorem about the Windows build. Take a block of at least one row, all of
  the same width w ≥ 1, with no blank byte (NUL, TAB, SPACE) and no CR in any row, and end each
  row by CR LF. Then the output is the transposed block, encoded the same way, and running the
  transposer twice gives back the input bytes. Without the byte condition the theorem fails: a
  column of blanks is trimmed to an empty line, and a CR in a row can form a terminator.
- `TransposerExamples` — two small inputs worked out completely.

The newline convention is a parameter `os` of every operation. The shipped build is Windows
(`#define OS_TYPE` at main.c:24); the grid theorem and the worked examples use that convention. The input file is an argument `din: seq<byte>`. The
output file is the returned `Option<seq<byte>>`. `None` stands for the empty-input case, in
which c2tc writes no file.

Points of the code's behaviour that the model keeps as they are:

- Output lines are trimmed of trailing blanks. Their length is therefore at most the number of
  slots in `nl`, not always equal to it.
- Inside a line, every blank sample before a later non-blank becomes one space; a run of blanks
  is not collapsed to a single space (main.c:157-163).
- The terminator written after each column is always CR LF, whatever `OS_TYPE` is.
- Under `OS_MAC` no byte starts a terminator; a lone CR is not a line end (main.c:96-97).
- An input without a terminator gives an empty output, because the last line never counts
  towards `longest`.

## Model

| member | source | states |
|---|---|---|
| Newlines.IsNewline | main.c:85-102 | Under Windows the result is non-zero exactly when CR LF starts at `i`, and then it is 2. Under Linux it is 1 exactly on LF. Under Mac it is always 0. Every terminator fits in the buffer. An offset at or past the end gives 0. |
| Newlines.TerminatorsDisjoint | main.c:88-92 | No terminator starts inside another one. |
| LineIndexing.TerminatorsSound | main.c:137-140 | Every offset the fill pass records starts a terminator. |
| LineIndexing.TerminatorsSorted | main.c:137-140 | The recorded offsets are strictly increasing. |
| LineIndexing.TerminatorsComplete | main.c:137-140 | Every offset where isnewline is non-zero is recorded. |
| LineIndexing.TerminatorsCount | main.c:127-132 | The number of recorded offsets equals the number of offsets where isnewline is non-zero, which is what the counting pass counts. |
| LineIndexing.TerminatorsPrefix | main.c:137-140 | Scanning further only appends offsets. |
| LineIndexing.TerminatorsStable | main.c:137-140 | A stretch without terminators adds no offsets. |
| LineIndexing.LineIndexShape | main.c:127-140 | `nlcount` is 1 plus the number of terminators, and `nl[0] == 0`. For k ≥ 1, `nl[k]` is a terminator below the length. The slots from 1 on increase strictly and include every terminator. |
| LineIndexing.NoTerminatorBetween | main.c:137-140 | No terminator starts strictly between two consecutive slots, or after the last slot. |
| LineIndexing.NoTerminatorBeforeFirst | main.c:137-140 | No terminator starts before the first recorded one. |
| LineIndexing.BuildLineIndex | main.c:127-140 | The counting pass, the zeroed allocation and the fill pass produce exactly `LineIndex`: 0, then every terminator offset in order. |
| ColumnSampler.GetCxy | main.c:104-112 | NUL for a row past the index. Inside row y, the byte at `nl[y] + isnewline(nl[y]) + x`. NUL when that offset reaches the next slot (rows other than the last) or the end of the input. |
| ColumnSampler.GetCxyAsWritten | main.c:104-112 | The code as written. It agrees with GetCxy on every row but the last. On the last row it returns NUL whenever the word read past `nl` is at or below the sample offset. |
| ColumnSampler.LastRowReadsPastIndex | main.c:109 | On "ab" CR LF "cd" with a 0 past the index, the as-written sampler returns NUL for row 1, column 0, where the byte is 'c'. |
| ColumnSampler.SampleOutsideTerminators | main.c:108-110 | Over the index c2tc builds, a sample inside a row never reads a byte of a line terminator. |
| GrowableBuffer.Capacity | main.c:77 | The capacity kept for n bytes is the least multiple of 64 that is at least n. |
| GrowableBuffer.OutputBuffer.constructor | main.c:116-119 | The output starts empty, with no allocation. |
| GrowableBuffer.OutputBuffer.Append | main.c:73-83 | When `len % 64 == 0` the array is replaced by one of `(1 + len/64) * 64` bytes; otherwise the array is kept. Afterwards `c` follows the earlier bytes, which are unchanged, and `len` grows by one. The capacity invariant still holds. |
| Transposer.LongestUpTo | main.c:143-148 | The result bounds every width `nl[i+1] - nl[i] - isnewline(nl[i])` of the first n pairs. It is 0 or one of those widths. |
| Transposer.ComputeLongest | main.c:142-148 | The loop over consecutive pairs of `nl` computes `Longest`, the maximum over those pairs, so the last line never counts. |
| Transposer.RenderAt | main.c:157-165 | Each emitted sample is shown as itself, or as a space if it is blank. |
| Transposer.TrimBlanksShape | main.c:152-167 | Trimming keeps a prefix, drops only blanks, and leaves a non-blank at the end. |
| Transposer.EmitColumnShape | main.c:152-167 | A column's output has at most one byte per row. Byte i is sample i, with blanks shown as spaces. Every sample after the output is blank, and the last sample output is not blank. |
| Transposer.RenderTrimmed | main.c:152-167 | Showing a column in full equals its trimmed output followed by one space per dropped blank. |
| Transposer.EmitStep | main.c:155-166 | One row: a blank leaves the output unchanged and adds a pending space. A non-blank appends the pending spaces and then itself, and leaves none pending. |
| Transposer.JoinLineAt | main.c:150-171 | Output line x sits right after lines 0 .. x-1. |
| Transposer.JoinLength | main.c:150-171 | Lines of at most m bytes give at most `count * m` bytes. |
| Transposer.OutputLineShape | main.c:153-170 | Each output line has between 2 and nlcount + 2 bytes and ends in CR LF. |
| Transposer.OutputShape | main.c:150-171 | `OutputLines` has `longest` entries, one per column, and the output is their concatenation, at most `longest * (nlcount + 2)` bytes. A column can itself hold a CR above an LF, so the output bytes can contain more CR LF pairs than `longest`. |
| Transposer.NoTerminatorNoOutput | main.c:144-150 | An input without a terminator gives an empty output. |
| Transposer.AppendSpaces | main.c:160-163 | Flushing n pending spaces appends exactly n spaces. |
| Transposer.AppendSample | main.c:155-166 | A blank sample (NUL, TAB, SPACE) adds one pending space and writes nothing. Any other byte writes the pending spaces, then itself, and resets pending to 0. |
| Transposer.AppendColumn | main.c:152-170 | One column pass appends exactly `OutputLine`: the column's emitted samples, then CR LF. |
| Transposer.Transpose | main.c:114-172 | An empty input gives None, because nothing is written. Any other input gives exactly `ExpectedOutput`: the `longest` output lines, one per column, in order. |
| GridRoundTrip.TransposeGridInvolutive | main.c:150-171 | The transpose of a block is a block, and transposing it again gives the block back. |
| GridRoundTrip.EncodedTerminators | main.c:137-140 | In an encoded block, the scan finds one terminator right after each row. |
| GridRoundTrip.GridIndex | main.c:127-140 | The index of an encoded block is 0, then the CR after every row. |
| GridRoundTrip.GridLongest | main.c:142-148 | For an encoded block, `longest` is the block's width. |
| GridRoundTrip.GridSample | main.c:104-112 | In an encoded block, getcxy returns byte x of row y. It returns NUL for the slot after the last row. |
| GridRoundTrip.EmitPlainColumn | main.c:152-167 | A column of non-blanks followed by NUL is emitted as the column itself. |
| GridRoundTrip.GridColumn | main.c:150-167 | Column x of an encoded block is row x of the transpose, followed by NUL. |
| GridRoundTrip.GridTranspose | main.c:114-172 | The output for an encoded block is the encoded transpose. |
| GridRoundTrip.GridRoundTrip | main.c:114-172 | Transposing an encoded block twice gives back the same bytes. |
| TransposerExamples.TwoByTwoIndex | main.c:127-148 | "ab" CR LF "cd" has the index [0, 2] and longest 2. |
| TransposerExamples.TwoByTwo | main.c:114-172 | "ab" CR LF "cd" becomes "ac" CR LF "bd" CR LF. |
| TransposerExamples.ShortThenLongIndex | main.c:142-148 | "a" CR LF "bcd" has longest 1, although its last line has 3 bytes. |
| TransposerExamples.LastLineNotCounted | main.c:142-171 | "a" CR LF "bcd" becomes "ab" CR LF. The "cd" of the last line is lost. |

## Findings

| source | as written | input that shows it | evidently intended | confidence | as-written member | corrected member |
|---|---|---|---|---|---|---|
| main.c:109 | `y < nlcount && x >= nl[y + 1]` also runs for the last row `y == nlcount - 1`, where it reads `nl[nlcount]`, one past the array allocated at main.c:134 | "ab" CR LF "cd", row 1, column 0: when the word past `nl` is 0, getcxy returns 0 instead of 'c' | bound by the next slot only when there is one (`y + 1 < nlcount`) | not executed; high | ColumnSampler.GetCxyAsWritten | ColumnSampler.GetCxy |

The rest of the model uses GetCxy.

## Left out

- File I/O: `file_read` and `file_write` (main.c:34-71) are not part of this model. The input is a given byte sequence, and the output is the returned sequence. `file_read` also writes one byte past its allocation (main.c:51). That write is outside the model.
- `main` and `error_args` (main.c:26-32, main.c:175-226): argument parsing and diagnostics. Both flags call the same `c2tc`. The `printf` on empty input becomes the `None` result.
- Allocation failure: `realloc` and `malloc` are modelled as always succeeding. `append` returns no success flag, because c2tc ignores it, and a null handle cannot be expressed. Nothing is freed.
- GrowableBuffer.OutputBuffer.Append: the batch is fixed at 64, the only value c2tc passes.
- C integer widths: `int` and `size_t` are unbounded integers. Overflow of a line width, of `nlcount` or of the output size is not modelled.
- The compile-time `#define OS_TYPE`: it becomes a parameter `os`. GridRoundTrip and TransposerExamples are proved for Windows, the shipped build, only.
- Newlines.IsNewline: for `i == len` the C reads `c[len]`. The model returns 0 there. c2tc never calls isnewline there, because every offset it passes is below the length.
- ColumnSampler.GetCxy: the C guard `y > nlcount` lets `y == nlcount` through and then reads `nl[nlcount]`. The model returns NUL for every `y >= nlcount`. c2tc never asks for such a row.
- A NUL byte inside the input is treated as blank, exactly as the C treats it. C strings are not modelled otherwise.
