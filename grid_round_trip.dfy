/** Rectangular text under the Windows convention: c2tc maps a block of at least one row, all of
    the same width w >= 1 and holding no blank (NUL, TAB, SPACE) and no CR, each row ended by
    CR LF, to the block read column by column, so running it twice gives the block back. */
module GridRoundTrip {
  import opened Newlines
  import opened LineIndexing
  import opened ColumnSampler
  import opened Transposer

  /** A byte that is neither a blank nor CR. */
  predicate Plain(b: byte)
  {
    !IsBlank(b) && b != CR
  }

  /** `rows` is a block of at least one row, each of exactly `w >= 1` plain bytes. */
  predicate IsGrid(rows: seq<seq<byte>>, w: nat)
  {
    |rows| >= 1 && w >= 1 &&
    forall y :: 0 <= y < |rows| ==> |rows[y]| == w && forall x :: 0 <= x < w ==> Plain(rows[y][x])
  }

  /** Every row followed by CR LF. */
  function Framed(rows: seq<seq<byte>>): seq<seq<byte>>
  {
    seq(|rows|, y requires 0 <= y < |rows| => rows[y] + [CR, LF])
  }

  /** The file holding the block: the rows one after the other, each ended by CR LF. */
  function Encode(rows: seq<seq<byte>>): seq<byte>
  {
    Join(Framed(rows))
  }

  /** The block read column by column: row x of the result is column x of `rows`. */
  function TransposeGrid(rows: seq<seq<byte>>, w: nat): seq<seq<byte>>
    requires forall y :: 0 <= y < |rows| ==> |rows[y]| == w
  {
    seq(w, x requires 0 <= x < w => seq(|rows|, y requires 0 <= y < |rows| => rows[y][x]))
  }

  /** Offset of row k of an encoded block of width w. */
  function RowStart(k: nat, w: nat): nat
  {
    k * (w + 2)
  }

  /** The terminator offsets of the first k rows of an encoded block of width w. */
  function Slots(k: nat, w: nat): seq<nat>
  {
    seq(k, j requires 0 <= j => RowStart(j, w) + w)
  }

  /** Transposing a block gives a block of width |rows|, and transposing that gives `rows` back. */
  lemma TransposeGridInvolutive(rows: seq<seq<byte>>, w: nat)
    requires IsGrid(rows, w)
    ensures IsGrid(TransposeGrid(rows, w), |rows|)
    ensures TransposeGrid(TransposeGrid(rows, w), |rows|) == rows
  {
    var t := TransposeGrid(rows, w);
    forall x | 0 <= x < w ensures |t[x]| == |rows| && forall y :: 0 <= y < |rows| ==> Plain(t[x][y]) {
      forall y | 0 <= y < |rows| ensures Plain(t[x][y]) {
        assert t[x][y] == rows[y][x];
      }
    }
    var tt := TransposeGrid(t, |rows|);
    forall y | 0 <= y < |rows| ensures tt[y] == rows[y] {
      forall x | 0 <= x < w ensures tt[y][x] == rows[y][x] {
        assert tt[y][x] == t[x][y];
      }
    }
  }

  /** The first k rows of an encoded block take RowStart(k, w) bytes. */
  lemma {:induction false} EncodedPrefix(rows: seq<seq<byte>>, w: nat, k: nat)
    requires IsGrid(rows, w) && k <= |rows|
    ensures |Join(Framed(rows)[..k])| == RowStart(k, w)
  {
    var f := Framed(rows);
    if k == 0 {
      assert f[..0] == [];
    } else {
      EncodedPrefix(rows, w, k - 1);
      JoinSnoc(f, k - 1);
      assert |f[k - 1]| == w + 2;
      assert RowStart(k, w) == RowStart(k - 1, w) + w + 2;
    }
  }

  /** An encoded block of R rows takes RowStart(R, w) bytes. */
  lemma EncodedLength(rows: seq<seq<byte>>, w: nat)
    requires IsGrid(rows, w)
    ensures |Encode(rows)| == RowStart(|rows|, w)
  {
    EncodedPrefix(rows, w, |rows|);
    assert Framed(rows)[..|rows|] == Framed(rows);
  }

  /** Byte j of row k of an encoded block: the row's bytes, then CR, then LF. */
  lemma EncodedAt(rows: seq<seq<byte>>, w: nat, k: nat, j: nat)
    requires IsGrid(rows, w) && k < |rows| && j < w + 2
    ensures RowStart(k, w) + j < |Encode(rows)|
    ensures Encode(rows)[RowStart(k, w) + j] == (rows[k] + [CR, LF])[j]
  {
    var f := Framed(rows);
    JoinLineAt(f, k);
    EncodedPrefix(rows, w, k);
    var whole, start := Join(f), RowStart(k, w);
    assert whole[start..start + |f[k]|][j] == f[k][j];
  }

  /** In an encoded block a terminator starts exactly at the CR after each row. */
  lemma EncodedNewlines(rows: seq<seq<byte>>, w: nat, k: nat, j: nat)
    requires IsGrid(rows, w) && k < |rows| && j < w + 2
    ensures IsNewline(Windows, Encode(rows), RowStart(k, w) + j) == if j == w then 2 else 0
  {
    EncodedAt(rows, w, k, j);
    if j == w {
      EncodedAt(rows, w, k, w + 1);
    } else if j < w {
      assert Plain(rows[k][j]);
    }
  }

  /** Scanning one more row of an encoded block finds exactly the terminator after it. */
  lemma EncodedRowTerminators(rows: seq<seq<byte>>, w: nat, k: nat)
    requires IsGrid(rows, w) && k < |rows|
    ensures RowStart(k + 1, w) <= |Encode(rows)|
    ensures Terminators(Windows, Encode(rows), RowStart(k + 1, w)) ==
      Terminators(Windows, Encode(rows), RowStart(k, w)) + [RowStart(k, w) + w]
  {
    var c := Encode(rows);
    var s := RowStart(k, w);
    assert RowStart(k + 1, w) == RowStart(k, w) + w + 2;
    EncodedAt(rows, w, k, w + 1);
    forall i | s <= i < s + w ensures IsNewline(Windows, c, i) == 0 {
      EncodedNewlines(rows, w, k, i - s);
    }
    TerminatorsStable(Windows, c, s, s + w);
    EncodedNewlines(rows, w, k, w);
    EncodedNewlines(rows, w, k, w + 1);
    assert Terminators(Windows, c, s + w + 2) == Terminators(Windows, c, s + w + 1);
  }

  /** Scanning the first k rows of an encoded block finds the k terminators after them. */
  lemma {:induction false} EncodedTerminators(rows: seq<seq<byte>>, w: nat, k: nat)
    requires IsGrid(rows, w) && k <= |rows|
    ensures RowStart(k, w) <= |Encode(rows)|
    ensures Terminators(Windows, Encode(rows), RowStart(k, w)) == Slots(k, w)
  {
    if k == 0 {
      EncodedLength(rows, w);
    } else {
      EncodedTerminators(rows, w, k - 1);
      EncodedRowTerminators(rows, w, k - 1);
      assert Slots(k, w) == Slots(k - 1, w) + [RowStart(k - 1, w) + w];
    }
  }

  /** The index c2tc builds for an encoded block: 0, then the CR after every row. */
  lemma GridIndex(rows: seq<seq<byte>>, w: nat)
    requires IsGrid(rows, w)
    ensures LineIndex(Windows, Encode(rows)) == [0] + Slots(|rows|, w)
  {
    EncodedLength(rows, w);
    EncodedTerminators(rows, w, |rows|);
  }

  /** Every row of an encoded block has width w as c2tc measures it, so longest is w. */
  lemma GridLongest(rows: seq<seq<byte>>, w: nat)
    requires IsGrid(rows, w)
    ensures Longest(Windows, Encode(rows), LineIndex(Windows, Encode(rows))) == w
  {
    var c := Encode(rows);
    var nl := LineIndex(Windows, c);
    GridIndex(rows, w);
    forall i | 0 <= i < |rows| ensures Width(Windows, c, nl, i) == w {
      if i == 0 {
        EncodedNewlines(rows, w, 0, 0);
      } else {
        EncodedNewlines(rows, w, i - 1, w);
        assert RowStart(i, w) == RowStart(i - 1, w) + w + 2;
      }
    }
    assert Width(Windows, c, nl, 0) == w;
  }

  /** getcxy on an encoded block: byte x of row y, and NUL for the empty slot after the last row. */
  lemma GridSample(rows: seq<seq<byte>>, w: nat, x: nat, y: nat)
    requires IsGrid(rows, w) && x < w && y <= |rows|
    ensures GetCxy(Windows, Encode(rows), LineIndex(Windows, Encode(rows)), x, y) == if y < |rows| then rows[y][x] else NUL
  {
    var c := Encode(rows);
    var nl := [0] + Slots(|rows|, w);
    GridIndex(rows, w);
    if y == 0 {
      EncodedNewlines(rows, w, 0, 0);
      EncodedAt(rows, w, 0, x);
      assert nl[1] == w;
      assert SampleOffset(Windows, c, nl, x, 0) == x;
    } else {
      EncodedNewlines(rows, w, y - 1, w);
      assert RowStart(y, w) == RowStart(y - 1, w) + w + 2;
      assert nl[y] == RowStart(y - 1, w) + w;
      assert SampleOffset(Windows, c, nl, x, y) == RowStart(y, w) + x;
      if y < |rows| {
        EncodedAt(rows, w, y, x);
        assert nl[y + 1] == RowStart(y, w) + w;
      } else {
        EncodedLength(rows, w);
      }
    }
  }

  /** A column of non-blanks followed by one blank is emitted as the column itself. */
  lemma EmitPlainColumn(col: seq<byte>)
    requires |col| >= 1
    requires forall i :: 0 <= i < |col| ==> !IsBlank(col[i])
    ensures EmitColumn(col + [NUL]) == col
  {
    var s := col + [NUL];
    assert s[..|s| - 1] == col;
    assert TrimBlanks(s) == col;
    forall i | 0 <= i < |col| ensures Render(col)[i] == col[i] {
      RenderAt(col, i);
    }
  }

  /** Column x of an encoded block, as c2tc samples it, is row x of the transpose then NUL. */
  lemma GridColumn(rows: seq<seq<byte>>, w: nat, x: nat)
    requires IsGrid(rows, w) && x < w
    ensures Column(Windows, Encode(rows), LineIndex(Windows, Encode(rows)), x) == TransposeGrid(rows, w)[x] + [NUL]
  {
    var col := Column(Windows, Encode(rows), LineIndex(Windows, Encode(rows)), x);
    GridIndex(rows, w);
    forall y | 0 <= y <= |rows| ensures col[y] == (TransposeGrid(rows, w)[x] + [NUL])[y] {
      GridSample(rows, w, x, y);
    }
  }

  /** c2tc transposes an encoded block: its output is the encoding of the transposed block. */
  lemma GridTranspose(rows: seq<seq<byte>>, w: nat)
    requires IsGrid(rows, w)
    ensures ExpectedOutput(Windows, Encode(rows)) == Encode(TransposeGrid(rows, w))
  {
    var c := Encode(rows);
    var nl := LineIndex(Windows, c);
    var t := TransposeGrid(rows, w);
    GridLongest(rows, w);
    TransposeGridInvolutive(rows, w);
    forall x | 0 <= x < w ensures OutputLines(Windows, c, nl)[x] == Framed(t)[x] {
      GridColumn(rows, w, x);
      EmitPlainColumn(t[x]);
    }
    assert OutputLines(Windows, c, nl) == Framed(t);
  }

  /** Transposing an encoded block twice gives the same bytes back. */
  lemma GridRoundTrip(rows: seq<seq<byte>>, w: nat)
    requires IsGrid(rows, w)
    ensures ExpectedOutput(Windows, ExpectedOutput(Windows, Encode(rows))) == Encode(rows)
  {
    GridTranspose(rows, w);
    TransposeGridInvolutive(rows, w);
    GridTranspose(TransposeGrid(rows, w), |rows|);
  }
}
