/** The line index of c2tc: slot 0 holds 0, slot k >= 1 the offset of the k-th line terminator. */
module LineIndexing {
  import opened Newlines

  /** Offsets below `n` at which a terminator starts, in the order the scan meets them. */
  function Terminators(os: Os, c: seq<byte>, n: nat): (t: seq<nat>)
    requires n <= |c|
    ensures forall k :: 0 <= k < |t| ==> t[k] < n
    decreases n
  {
    if n == 0 then []
    else Terminators(os, c, n - 1) + (if IsNewline(os, c, n - 1) != 0 then [n - 1] else [])
  }

  /** Every offset the scan lists starts a terminator. */
  lemma {:induction false} TerminatorsSound(os: Os, c: seq<byte>, n: nat)
    requires n <= |c|
    ensures forall k :: 0 <= k < |Terminators(os, c, n)| ==> IsNewline(os, c, Terminators(os, c, n)[k]) != 0
  {
    if n > 0 {
      TerminatorsSound(os, c, n - 1);
      var p, t := Terminators(os, c, n - 1), Terminators(os, c, n);
      forall k | 0 <= k < |t| ensures IsNewline(os, c, t[k]) != 0 {
        if k < |p| {
          assert t[k] == p[k];
          assert IsNewline(os, c, p[k]) != 0;
        } else {
          assert IsNewline(os, c, n - 1) != 0 && t == p + [n - 1];
        }
      }
    }
  }

  /** The scan lists its offsets in strictly increasing order. */
  lemma {:induction false} TerminatorsSorted(os: Os, c: seq<byte>, n: nat)
    requires n <= |c|
    ensures forall k, l :: 0 <= k < l < |Terminators(os, c, n)| ==> Terminators(os, c, n)[k] < Terminators(os, c, n)[l]
  {
    if n > 0 {
      TerminatorsSorted(os, c, n - 1);
      var p, t := Terminators(os, c, n - 1), Terminators(os, c, n);
      forall k, l | 0 <= k < l < |t| ensures t[k] < t[l] {
        assert t[k] == p[k];
        if l < |p| {
          assert t[l] == p[l];
        } else {
          assert t == p + [n - 1];
        }
      }
    }
  }

  /** The scan misses no offset below `n` that starts a terminator. */
  lemma {:induction false} TerminatorsComplete(os: Os, c: seq<byte>, n: nat, i: nat)
    requires i < n <= |c|
    requires IsNewline(os, c, i) != 0
    ensures i in Terminators(os, c, n)
  {
    var p := Terminators(os, c, n - 1);
    if i < n - 1 {
      TerminatorsComplete(os, c, n - 1, i);
      assert Terminators(os, c, n) == p + [n - 1] || Terminators(os, c, n) == p;
    } else {
      assert Terminators(os, c, n) == p + [n - 1];
    }
  }

  /** Scanning a stretch in which no terminator starts adds nothing. */
  lemma {:induction false} TerminatorsStable(os: Os, c: seq<byte>, m: nat, n: nat)
    requires m <= n <= |c|
    requires forall i :: m <= i < n ==> IsNewline(os, c, i) == 0
    ensures Terminators(os, c, n) == Terminators(os, c, m)
    decreases n - m
  {
    if m < n {
      TerminatorsStable(os, c, m, n - 1);
      assert IsNewline(os, c, n - 1) == 0;
    }
  }

  /** The same offsets as a set, independently of their order. */
  function TerminatorSet(os: Os, c: seq<byte>, n: nat): set<nat>
  {
    set i: nat | i < n && IsNewline(os, c, i) != 0
  }

  /** The index c2tc builds into `nl`: a leading 0, then every terminator offset. */
  function LineIndex(os: Os, c: seq<byte>): seq<nat>
  {
    [0] + Terminators(os, c, |c|)
  }

  /** The number of terminators equals the number of offsets the classifier accepts. */
  lemma {:induction false} TerminatorsCount(os: Os, c: seq<byte>, n: nat)
    requires n <= |c|
    ensures |Terminators(os, c, n)| == |TerminatorSet(os, c, n)|
  {
    if n > 0 {
      TerminatorsCount(os, c, n - 1);
      var prev := TerminatorSet(os, c, n - 1);
      if IsNewline(os, c, n - 1) != 0 {
        assert TerminatorSet(os, c, n) == prev + {n - 1};
        assert n - 1 !in prev;
      } else {
        assert TerminatorSet(os, c, n) == prev;
      }
    } else {
      assert TerminatorSet(os, c, 0) == {};
    }
  }

  /** Scanning further only appends terminators: the scan of a shorter prefix is a prefix. */
  lemma {:induction false} TerminatorsPrefix(os: Os, c: seq<byte>, m: nat, n: nat)
    requires m <= n <= |c|
    ensures Terminators(os, c, m) <= Terminators(os, c, n)
    decreases n - m
  {
    if m < n {
      TerminatorsPrefix(os, c, m, n - 1);
    }
  }

  /** The line index c2tc builds: one slot more than there are terminators, slot 0 is 0, and
      the slots from 1 on list every terminator offset, each below the length, ascending. */
  lemma LineIndexShape(os: Os, c: seq<byte>)
    ensures |LineIndex(os, c)| == 1 + |TerminatorSet(os, c, |c|)|
    ensures LineIndex(os, c)[0] == 0
    ensures forall k :: 1 <= k < |LineIndex(os, c)| ==>
      LineIndex(os, c)[k] < |c| && IsNewline(os, c, LineIndex(os, c)[k]) != 0
    ensures forall k, l :: 1 <= k < l < |LineIndex(os, c)| ==> LineIndex(os, c)[k] < LineIndex(os, c)[l]
    ensures forall i :: 0 <= i < |c| && IsNewline(os, c, i) != 0 ==> i in LineIndex(os, c)[1..]
  {
    var nl, t := LineIndex(os, c), Terminators(os, c, |c|);
    TerminatorsCount(os, c, |c|);
    TerminatorsSound(os, c, |c|);
    TerminatorsSorted(os, c, |c|);
    assert nl[1..] == t;
    forall k | 1 <= k < |nl| ensures nl[k] < |c| && IsNewline(os, c, nl[k]) != 0 {
      assert nl[k] == t[k - 1];
    }
    forall k, l | 1 <= k < l < |nl| ensures nl[k] < nl[l] {
      assert nl[k] == t[k - 1] && nl[l] == t[l - 1];
    }
    forall i | 0 <= i < |c| && IsNewline(os, c, i) != 0 ensures i in nl[1..] {
      TerminatorsComplete(os, c, |c|, i);
    }
  }

  /** No terminator starts strictly between two consecutive slots of the index, and none
      starts after the last slot. */
  lemma NoTerminatorBetween(os: Os, c: seq<byte>, k: nat, i: nat)
    requires k < |LineIndex(os, c)|
    requires LineIndex(os, c)[k] < i < |c|
    requires k + 1 < |LineIndex(os, c)| ==> i < LineIndex(os, c)[k + 1]
    ensures IsNewline(os, c, i) == 0
  {
    var nl := LineIndex(os, c);
    LineIndexShape(os, c);
    forall j | 1 <= j < |nl| ensures nl[j] != i {
      if j < k {
        assert nl[j] < nl[k];
      } else if k + 1 < j {
        assert nl[k + 1] < nl[j];
      }
    }
    assert i !in nl[1..];
  }

  /** No terminator starts before the first terminator of the index. */
  lemma NoTerminatorBeforeFirst(os: Os, c: seq<byte>, i: nat)
    requires i < |c|
    requires |LineIndex(os, c)| > 1 ==> i < LineIndex(os, c)[1]
    ensures IsNewline(os, c, i) == 0
  {
    var nl := LineIndex(os, c);
    LineIndexShape(os, c);
    forall j | 1 <= j < |nl| ensures nl[j] != i {
      if j > 1 { assert nl[1] < nl[j]; }
    }
    assert i !in nl[1..];
  }

  /** The two passes of c2tc (counting, then zeroing and filling `nl`). */
  method BuildLineIndex(os: Os, din: seq<byte>) returns (nl: array<nat>)
    ensures nl[..] == LineIndex(os, din)
  {
    var nlcount := 1;
    for i := 0 to |din|
      invariant nlcount == 1 + |Terminators(os, din, i)|
    {
      if IsNewline(os, din, i) != 0 {
        nlcount := nlcount + 1;
      }
    }
    nl := new nat[nlcount];
    for i := 0 to nlcount
      invariant forall k :: 0 <= k < i ==> nl[k] == 0
    {
      nl[i] := 0;
    }
    nlcount := 1;
    for i := 0 to |din|
      invariant nl.Length == 1 + |Terminators(os, din, |din|)|
      invariant nlcount == 1 + |Terminators(os, din, i)| <= nl.Length
      invariant nl[..nlcount] == [0] + Terminators(os, din, i)
    {
      TerminatorsPrefix(os, din, i + 1, |din|);
      if IsNewline(os, din, i) != 0 {
        nl[nlcount] := i;
        nlcount := nlcount + 1;
      }
    }
    assert nl[..] == nl[..nlcount];
  }
}
