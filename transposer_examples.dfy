/** Two small inputs worked through c2tc under the Windows convention. */
module TransposerExamples {
  import opened Newlines
  import opened LineIndexing
  import opened ColumnSampler
  import opened Transposer

  /** The index of "ab" CR LF "cd" is [0, 2], and its longest line has width 2. */
  lemma TwoByTwoIndex()
    ensures LineIndex(Windows, [97, 98, CR, LF, 99, 100]) == [0, 2]
    ensures Longest(Windows, [97, 98, CR, LF, 99, 100], [0, 2]) == 2
  {
    var din: seq<byte> := [97, 98, CR, LF, 99, 100];
    TerminatorsStable(Windows, din, 0, 2);
    TerminatorsStable(Windows, din, 3, 6);
    assert IsNewline(Windows, din, 2) == 2;
  }

  /** Column 0 of "ab" CR LF "cd" is "ac". */
  lemma TwoByTwoFirstColumn()
    ensures OutputLine(Windows, [97, 98, CR, LF, 99, 100], [0, 2], 0) == [97, 99, CR, LF]
  {
    var din: seq<byte> := [97, 98, CR, LF, 99, 100];
    assert IsNewline(Windows, din, 2) == 2;
    assert Column(Windows, din, [0, 2], 0) == [97, 99];
    assert EmitColumn([97, 99]) == [97, 99];
  }

  /** Column 1 of "ab" CR LF "cd" is "bd". */
  lemma TwoByTwoSecondColumn()
    ensures OutputLine(Windows, [97, 98, CR, LF, 99, 100], [0, 2], 1) == [98, 100, CR, LF]
  {
    var din: seq<byte> := [97, 98, CR, LF, 99, 100];
    assert IsNewline(Windows, din, 2) == 2;
    assert Column(Windows, din, [0, 2], 1) == [98, 100];
    assert EmitColumn([98, 100]) == [98, 100];
  }

  /** "ab" CR LF "cd": two lines of width 2 become "ac" CR LF "bd" CR LF. */
  lemma TwoByTwo()
    ensures ExpectedOutput(Windows, [97, 98, CR, LF, 99, 100]) == [97, 99, CR, LF, 98, 100, CR, LF]
  {
    var din: seq<byte> := [97, 98, CR, LF, 99, 100];
    TwoByTwoIndex();
    TwoByTwoFirstColumn();
    TwoByTwoSecondColumn();
    var lines := OutputLines(Windows, din, [0, 2]);
    assert |lines| == 2 && lines[0] == [97, 99, CR, LF] && lines[1] == [98, 100, CR, LF];
    JoinSnoc(lines, 0);
    JoinSnoc(lines, 1);
    assert lines[..2] == lines && lines[..0] == [];
  }

  /** The index of "a" CR LF "bcd" is [0, 1]; only the first line has a following slot, so
      longest is 1 although the last line has 3 bytes. */
  lemma ShortThenLongIndex()
    ensures LineIndex(Windows, [97, CR, LF, 98, 99, 100]) == [0, 1]
    ensures Longest(Windows, [97, CR, LF, 98, 99, 100], [0, 1]) == 1
  {
    var din: seq<byte> := [97, CR, LF, 98, 99, 100];
    TerminatorsStable(Windows, din, 0, 1);
    TerminatorsStable(Windows, din, 2, 6);
    assert IsNewline(Windows, din, 1) == 2;
  }

  /** Column 0 of "a" CR LF "bcd" is "ab". */
  lemma ShortThenLongColumn()
    ensures OutputLine(Windows, [97, CR, LF, 98, 99, 100], [0, 1], 0) == [97, 98, CR, LF]
  {
    var din: seq<byte> := [97, CR, LF, 98, 99, 100];
    assert IsNewline(Windows, din, 1) == 2;
    assert Column(Windows, din, [0, 1], 0) == [97, 98];
    assert EmitColumn([97, 98]) == [97, 98];
  }

  /** "a" CR LF "bcd": the last line never counts towards longest, so only its first byte is
      read and "cd" is lost. */
  lemma LastLineNotCounted()
    ensures ExpectedOutput(Windows, [97, CR, LF, 98, 99, 100]) == [97, 98, CR, LF]
  {
    var din: seq<byte> := [97, CR, LF, 98, 99, 100];
    ShortThenLongIndex();
    ShortThenLongColumn();
    var lines := OutputLines(Windows, din, [0, 1]);
    assert |lines| == 1 && lines[0] == [97, 98, CR, LF];
    JoinSnoc(lines, 0);
    assert lines[..1] == lines && lines[..0] == [];
  }
}
