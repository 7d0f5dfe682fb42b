/** The transposer c2tc (without its file I/O): line widths, column-major emission with
    trailing-blank trimming, and the CR LF after every column. */
module Transposer {
  import opened Newlines
  import opened LineIndexing
  import opened ColumnSampler
  import opened GrowableBuffer

  datatype Option<T> = None | Some(value: T)

  /** A sample c2tc turns into a pending space: NUL (outside the row, or a real NUL), TAB, SPACE. */
  predicate IsBlank(c: byte)
  {
    c == NUL || c == TAB || c == SPACE
  }

  /** What a sample becomes on output once it is followed by a non-blank. */
  function Shown(c: byte): byte
  {
    if IsBlank(c) then SPACE else c
  }

  /** Length of line i as c2tc measures it: from slot i, past its terminator, up to slot i + 1.
      Negative when the input starts with a terminator. */
  function Width(os: Os, din: seq<byte>, nl: seq<nat>, i: nat): int
    requires i + 1 < |nl|
  {
    nl[i + 1] - nl[i] - IsNewline(os, din, nl[i])
  }

  /** The largest width over the first `n` consecutive pairs of slots, or 0. */
  function LongestUpTo(os: Os, din: seq<byte>, nl: seq<nat>, n: nat): (r: nat)
    requires n < |nl|
    ensures forall i :: 0 <= i < n ==> Width(os, din, nl, i) <= r
    ensures r == 0 || exists i :: 0 <= i < n && Width(os, din, nl, i) == r
  {
    if n == 0 then 0
    else
      var m := LongestUpTo(os, din, nl, n - 1);
      var w := Width(os, din, nl, n - 1);
      if w > m then w else m
  }

  /** `longest` of c2tc: the maximum over all consecutive pairs; the last line has no pair. */
  function Longest(os: Os, din: seq<byte>, nl: seq<nat>): nat
    requires |nl| > 0
  {
    LongestUpTo(os, din, nl, |nl| - 1)
  }

  /** The samples of column x, one per slot of the index, top to bottom. */
  function Column(os: Os, din: seq<byte>, nl: seq<nat>, x: nat): seq<byte>
  {
    seq(|nl|, y requires 0 <= y => GetCxy(os, din, nl, x, y))
  }

  /** Blanks shown as spaces, everything else unchanged. */
  function Render(s: seq<byte>): (r: seq<byte>)
    ensures |r| == |s|
  {
    if s == [] then [] else Render(s[..|s| - 1]) + [Shown(s[|s| - 1])]
  }

  /** `s` without its trailing blanks. */
  function TrimBlanks(s: seq<byte>): (t: seq<byte>)
    ensures |t| <= |s|
  {
    if s == [] then []
    else if IsBlank(s[|s| - 1]) then TrimBlanks(s[..|s| - 1])
    else s
  }

  function Spaces(n: nat): (r: seq<byte>)
  {
    seq(n, _ => SPACE)
  }

  /** The text c2tc emits for one column, before its CR LF. */
  function EmitColumn(col: seq<byte>): seq<byte>
  {
    Render(TrimBlanks(col))
  }

  /** Output line x: column x emitted, then the hard-coded CR LF (whatever the Os). */
  function OutputLine(os: Os, din: seq<byte>, nl: seq<nat>, x: nat): seq<byte>
  {
    EmitColumn(Column(os, din, nl, x)) + [CR, LF]
  }

  /** The output lines c2tc emits: one per column below `longest`. */
  function OutputLines(os: Os, din: seq<byte>, nl: seq<nat>): seq<seq<byte>>
    requires |nl| > 0
  {
    seq(Longest(os, din, nl), x requires 0 <= x => OutputLine(os, din, nl, x))
  }

  /** Lines written one after the other. */
  function Join(lines: seq<seq<byte>>): seq<byte>
  {
    if lines == [] then [] else Join(lines[..|lines| - 1]) + lines[|lines| - 1]
  }

  /** Everything c2tc writes for a non-empty input `din`. */
  function ExpectedOutput(os: Os, din: seq<byte>): seq<byte>
  {
    Join(OutputLines(os, din, LineIndex(os, din)))
  }

  /** Rendering maps each byte on its own: blanks become spaces, the rest is kept. */
  lemma {:induction false} RenderAt(s: seq<byte>, i: nat)
    requires i < |s|
    ensures Render(s)[i] == Shown(s[i])
  {
    var p := s[..|s| - 1];
    assert Render(s) == Render(p) + [Shown(s[|s| - 1])];
    if i < |p| {
      RenderAt(p, i);
    }
  }

  /** Trimming keeps a prefix, drops only blanks, and leaves no blank at the end. */
  lemma {:induction false} TrimBlanksShape(s: seq<byte>)
    ensures TrimBlanks(s) == s[..|TrimBlanks(s)|]
    ensures forall i :: |TrimBlanks(s)| <= i < |s| ==> IsBlank(s[i])
    ensures TrimBlanks(s) == [] || !IsBlank(TrimBlanks(s)[|TrimBlanks(s)| - 1])
  {
    if s != [] && IsBlank(s[|s| - 1]) {
      var p := s[..|s| - 1];
      TrimBlanksShape(p);
      assert TrimBlanks(s) == TrimBlanks(p);
      assert p[..|TrimBlanks(p)|] == s[..|TrimBlanks(p)|];
    }
  }

  /** What c2tc emits for a column: every sample up to the last non-blank one, blanks shown as
      single spaces; the blanks after the last non-blank are dropped, and at most one byte per row. */
  lemma EmitColumnShape(col: seq<byte>)
    ensures |EmitColumn(col)| <= |col|
    ensures forall i :: 0 <= i < |EmitColumn(col)| ==> EmitColumn(col)[i] == Shown(col[i])
    ensures forall i :: |EmitColumn(col)| <= i < |col| ==> IsBlank(col[i])
    ensures EmitColumn(col) == [] || !IsBlank(col[|EmitColumn(col)| - 1])
  {
    var t := TrimBlanks(col);
    TrimBlanksShape(col);
    forall i | 0 <= i < |t| ensures EmitColumn(col)[i] == Shown(col[i]) {
      RenderAt(t, i);
      assert t[i] == col[i];
    }
    if t != [] {
      assert t[|t| - 1] == col[|t| - 1];
    }
  }

  /** Each output line is at most one byte per slot of the index, then CR LF. */
  lemma OutputLineShape(os: Os, din: seq<byte>, nl: seq<nat>, x: nat)
    ensures 2 <= |OutputLine(os, din, nl, x)| <= |nl| + 2
    ensures OutputLine(os, din, nl, x)[|OutputLine(os, din, nl, x)| - 2..] == [CR, LF]
  {
    EmitColumnShape(Column(os, din, nl, x));
  }

  /** Rendering a sequence is rendering its trimmed prefix followed by one space per trailing blank. */
  lemma RenderTrimmed(s: seq<byte>)
    ensures Render(s) == Render(TrimBlanks(s)) + Spaces(|s| - |TrimBlanks(s)|)
  {
    var t := TrimBlanks(s);
    var rhs := Render(t) + Spaces(|s| - |t|);
    TrimBlanksShape(s);
    forall i | 0 <= i < |s| ensures Render(s)[i] == rhs[i] {
      RenderAt(s, i);
      if i < |t| {
        RenderAt(t, i);
        assert s[i] == t[i];
      }
    }
  }

  /** What c2tc has written for the first `y` samples of a column: everything up to the last
      non-blank among them. */
  function Emitted(col: seq<byte>, y: nat): seq<byte>
    requires y <= |col|
  {
    Render(TrimBlanks(col[..y]))
  }

  /** How many blanks c2tc holds back after the first `y` samples of a column. */
  function Pending(col: seq<byte>, y: nat): nat
    requires y <= |col|
  {
    y - |TrimBlanks(col[..y])|
  }

  /** One row of the inner loop of c2tc: a blank leaves the emitted text unchanged and adds
      one pending space; a non-blank flushes the pending spaces, is appended, and leaves none. */
  lemma EmitStep(col: seq<byte>, y: nat)
    requires y < |col|
    ensures IsBlank(col[y]) ==> Emitted(col, y + 1) == Emitted(col, y) && Pending(col, y + 1) == Pending(col, y) + 1
    ensures !IsBlank(col[y]) ==>
      Emitted(col, y + 1) == Emitted(col, y) + Spaces(Pending(col, y)) + [col[y]] && Pending(col, y + 1) == 0
  {
    var s, c := col[..y], col[y];
    assert col[..y + 1] == s + [c];
    assert (s + [c])[..|s|] == s;
    if !IsBlank(c) {
      RenderTrimmed(s);
      assert TrimBlanks(s + [c]) == s + [c];
      assert Render(s + [c]) == Render(s) + [c];
    }
  }

  /** Writing one more line appends it. */
  lemma JoinSnoc(lines: seq<seq<byte>>, n: nat)
    requires n < |lines|
    ensures Join(lines[..n + 1]) == Join(lines[..n]) + lines[n]
  {
    assert lines[..n + 1][..n] == lines[..n];
  }

  /** Writing more lines only appends: the output of fewer lines is a prefix. */
  lemma {:induction false} JoinPrefix(lines: seq<seq<byte>>, n: nat)
    requires n <= |lines|
    ensures Join(lines[..n]) <= Join(lines)
    decreases |lines| - n
  {
    if n < |lines| {
      JoinPrefix(lines, n + 1);
      JoinSnoc(lines, n);
    } else {
      assert lines[..n] == lines;
    }
  }

  /** Line n of the output sits right after lines 0 .. n-1. */
  lemma JoinLineAt(lines: seq<seq<byte>>, n: nat)
    requires n < |lines|
    ensures |Join(lines[..n])| + |lines[n]| <= |Join(lines)|
    ensures Join(lines)[|Join(lines[..n])|..|Join(lines[..n])| + |lines[n]|] == lines[n]
  {
    JoinPrefix(lines, n + 1);
    JoinSnoc(lines, n);
    var whole, upto := Join(lines), Join(lines[..n + 1]);
    assert upto == whole[..|upto|];
  }

  /** If every line has at most `m` bytes, the output has at most `|lines| * m`. */
  lemma {:induction false} JoinLength(lines: seq<seq<byte>>, m: nat)
    requires forall i :: 0 <= i < |lines| ==> |lines[i]| <= m
    ensures |Join(lines)| <= |lines| * m
  {
    if lines != [] {
      var n := |lines| - 1;
      JoinLength(lines[..n], m);
      assert |lines[n]| <= m;
      assert (n + 1) * m == n * m + m;
    }
  }

  /** c2tc writes `longest` lines, line x is column x emitted and ended by CR LF, and each line
      has at most nlcount + 2 bytes; so the output has at most `longest * (nlcount + 2)` bytes. */
  lemma OutputShape(os: Os, din: seq<byte>)
    ensures var nl := LineIndex(os, din);
      |OutputLines(os, din, nl)| == Longest(os, din, nl)
    ensures |ExpectedOutput(os, din)| <= Longest(os, din, LineIndex(os, din)) * (|LineIndex(os, din)| + 2)
  {
    var nl := LineIndex(os, din);
    var lines := OutputLines(os, din, nl);
    forall i | 0 <= i < |lines| ensures |lines[i]| <= |nl| + 2 {
      OutputLineShape(os, din, nl, i);
    }
    JoinLength(lines, |nl| + 2);
  }

  /** An input without any terminator has an index of one slot, so no pair of slots, longest 0
      and an empty output (the last line never contributes to longest). */
  lemma NoTerminatorNoOutput(os: Os, din: seq<byte>)
    requires TerminatorSet(os, din, |din|) == {}
    ensures ExpectedOutput(os, din) == []
  {
    LineIndexShape(os, din);
  }

  /** The `longest` loop of c2tc over consecutive pairs of `nl`. */
  method ComputeLongest(os: Os, din: seq<byte>, nl: array<nat>) returns (longest: nat)
    requires nl.Length > 0
    ensures longest == Longest(os, din, nl[..])
  {
    longest := 0;
    var i := 0;
    while i + 1 < nl.Length
      invariant i < nl.Length
      invariant longest == LongestUpTo(os, din, nl[..], i)
    {
      var len := nl[i + 1] - nl[i] - IsNewline(os, din, nl[i]);
      if len > longest {
        longest := len;
      }
      i := i + 1;
    }
  }

  lemma LineRegroup(a: seq<byte>, b: seq<byte>)
    ensures a + b + [CR] + [LF] == a + (b + [CR, LF])
  {
  }

  lemma ConcatRegroup(a: seq<byte>, b: seq<byte>, c: seq<byte>, d: seq<byte>)
    ensures a + b + c + d == a + (b + c + d)
  {
  }

  /** The flush loop of c2tc: `n` pending spaces, one append each. */
  method AppendSpaces(buf: OutputBuffer, n: nat)
    requires buf.Valid()
    modifies buf, buf.data
    ensures buf.Valid() && (buf.data == old(buf.data) || fresh(buf.data))
    ensures buf.contents == old(buf.contents) + Spaces(n)
  {
    for k := 0 to n
      invariant buf.Valid() && (buf.data == old(buf.data) || fresh(buf.data))
      invariant buf.contents == old(buf.contents) + Spaces(k)
    {
      buf.Append(SPACE);
      assert Spaces(k + 1) == Spaces(k) + [SPACE];
    }
  }

  /** One row of the inner loop of c2tc: a blank (NUL, TAB or SPACE) becomes one more pending
      space; any other byte first flushes the pending spaces, then is appended itself. */
  method AppendSample(buf: OutputBuffer, c: byte, pending: nat) returns (pending': nat)
    requires buf.Valid()
    modifies buf, buf.data
    ensures buf.Valid() && (buf.data == old(buf.data) || fresh(buf.data))
    ensures IsBlank(c) ==> pending' == pending + 1 && buf.contents == old(buf.contents)
    ensures !IsBlank(c) ==> pending' == 0 && buf.contents == old(buf.contents) + Spaces(pending) + [c]
  {
    if c == NUL || c == TAB || c == SPACE {
      pending' := pending + 1;
    } else {
      AppendSpaces(buf, pending);
      pending' := 0;
      buf.Append(c);
    }
  }

  /** One pass of the column loop of c2tc: rows top to bottom, blanks counted as pending
      spaces and flushed only before a non-blank, then the hard-coded CR LF. */
  method AppendColumn(buf: OutputBuffer, os: Os, din: seq<byte>, nl: seq<nat>, x: nat)
    requires buf.Valid()
    modifies buf, buf.data
    ensures buf.Valid() && (buf.data == old(buf.data) || fresh(buf.data))
    ensures buf.contents == old(buf.contents) + OutputLine(os, din, nl, x)
  {
    ghost var done := buf.contents;
    ghost var col := Column(os, din, nl, x);
    var pending := 0;
    for y := 0 to |nl|
      invariant buf.Valid() && (buf.data == old(buf.data) || fresh(buf.data))
      invariant buf.contents == done + Emitted(col, y)
      invariant pending == Pending(col, y)
    {
      var c := GetCxy(os, din, nl, x, y);
      EmitStep(col, y);
      ghost var emitted := Emitted(col, y);
      pending := AppendSample(buf, c, pending);
      if !IsBlank(c) {
        ConcatRegroup(done, emitted, Spaces(Pending(col, y)), [c]);
      }
    }
    assert col[..|nl|] == col;
    ghost var line := EmitColumn(col);
    buf.Append(CR);
    buf.Append(LF);
    LineRegroup(done, line);
  }

  /** c2tc without its file I/O: `None` when the input is empty (nothing is written), otherwise
      the bytes it writes to the output file. */
  method Transpose(os: Os, din: seq<byte>) returns (dout: Option<seq<byte>>)
    ensures |din| == 0 ==> dout == None
    ensures |din| > 0 ==> dout == Some(ExpectedOutput(os, din))
  {
    if |din| == 0 {
      return None;
    }
    var nl := BuildLineIndex(os, din);
    var longest := ComputeLongest(os, din, nl);
    ghost var index := nl[..];
    ghost var lines := OutputLines(os, din, index);
    var buf := new OutputBuffer();
    for x := 0 to longest
      invariant nl[..] == index
      invariant fresh(buf.data) && buf.Valid()
      invariant buf.contents == Join(lines[..x])
    {
      AppendColumn(buf, os, din, nl[..], x);
      JoinSnoc(lines, x);
    }
    assert lines[..longest] == lines;
    dout := Some(buf.data[..buf.len]);
  }
}
