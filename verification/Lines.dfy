/** The lines of a file with their positions: what a reader of the file is meant to deliver. */
module Lines {
  import opened Prelude
  import opened Text

  /** reader.Line: a message, the file position of its first byte and its length. */
  datatype Line = Line(message: string, offset: int, size: nat)

  /** Positions of consecutive pieces when the first one starts at `at` and one separator stands between two. */
  function Label(ps: seq<string>, at: int): (ls: seq<Line>)
    ensures |ls| == |ps|
  {
    if ps == [] then [] else [Line(ps[0], at, |ps[0]|)] + Label(ps[1..], at + |ps[0]| + 1)
  }

  function NonBlank(ls: seq<Line>): (kept: seq<Line>)
    ensures |kept| <= |ls|
  {
    if ls == [] then []
    else if ls[0].message == "" then NonBlank(ls[1..])
    else [ls[0]] + NonBlank(ls[1..])
  }

  /** Bytes taken by a list of pieces, one separator counted after each. */
  function Extent(ps: seq<string>): nat {
    if ps == [] then 0 else |ps[0]| + 1 + Extent(ps[1..])
  }

  /** The non-blank lines of file[lo..hi], with their positions in the file. */
  function LinesIn(file: string, lo: nat, hi: nat): seq<Line>
    requires lo <= hi <= |file|
  {
    NonBlank(Label(Split(file[lo..hi], NL), lo))
  }

  /** The non-blank lines from a position to the end; none from beyond the end. */
  function LinesFrom(file: string, lo: nat): seq<Line> {
    if lo <= |file| then LinesIn(file, lo, |file|) else []
  }

  lemma {:induction false} LabelConcat(a: seq<string>, b: seq<string>, at: int)
    ensures Label(a + b, at) == Label(a, at) + Label(b, at + Extent(a))
  {
    var ab := a + b;
    if a == [] {
      assert ab == b;
    } else {
      assert ab[0] == a[0] && ab[1..] == a[1..] + b;
      var next := at + |a[0]| + 1;
      LabelConcat(a[1..], b, next);
      Regroup([Line(a[0], at, |a[0]|)], Label(a[1..], next), Label(b, next + Extent(a[1..])));
    }
  }

  lemma {:induction false} NonBlankConcat(a: seq<Line>, b: seq<Line>)
    ensures NonBlank(a + b) == NonBlank(a) + NonBlank(b)
  {
    var ab := a + b;
    if a == [] {
      assert ab == b;
    } else {
      assert ab[0] == a[0] && ab[1..] == a[1..] + b;
      NonBlankConcat(a[1..], b);
      if a[0].message != "" {
        Regroup([a[0]], NonBlank(a[1..]), NonBlank(b));
      }
    }
  }

  lemma {:induction false} ExtentConcat(a: seq<string>, b: seq<string>)
    ensures Extent(a + b) == Extent(a) + Extent(b)
  {
    if a == [] {
      assert a + b == b;
    } else {
      ExtentConcat(a[1..], b);
      assert (a + b)[1..] == a[1..] + b;
    }
  }

  /** The pieces of a string with one separator each take one byte more than the string. */
  lemma {:induction false} ExtentSplit(s: string)
    ensures Extent(Split(s, NL)) == |s| + 1
  {
    if s != "" {
      ExtentSplit(s[1..]);
    }
  }

  lemma LinesInEmpty(file: string, lo: nat)
    requires lo <= |file|
    ensures LinesIn(file, lo, lo) == []
  {
    assert file[lo..lo] == "";
  }

  /** A stretch without a newline is one line. */
  lemma LinesInRun(file: string, lo: nat, hi: nat)
    requires lo < hi <= |file| && NL !in file[lo..hi]
    ensures LinesIn(file, lo, hi) == [Line(file[lo..hi], lo, hi - lo)]
  {
    SplitNone(file[lo..hi], NL);
  }

  /** A newline splits the lines around it. */
  lemma LinesSplit(file: string, lo: nat, m: nat, hi: nat)
    requires lo <= m < hi <= |file| && file[m] == NL
    ensures LinesIn(file, lo, hi) == LinesIn(file, lo, m) + LinesIn(file, m + 1, hi)
  {
    var a, b := Split(file[lo..m], NL), Split(file[m + 1..hi], NL);
    SplitAround(file, lo, m, hi);
    ExtentSplit(file[lo..m]);
    PiecesOfBoth(a, b, lo, m + 1);
  }

  lemma {:induction false} PiecesOfBoth(a: seq<string>, b: seq<string>, lo: int, next: int)
    requires next == lo + Extent(a)
    ensures NonBlank(Label(a + b, lo)) == NonBlank(Label(a, lo)) + NonBlank(Label(b, next))
  {
    LabelConcat(a, b, lo);
    NonBlankConcat(Label(a, lo), Label(b, next));
  }

  lemma SplitAround(file: string, lo: nat, m: nat, hi: nat)
    requires lo <= m < hi <= |file| && file[m] == NL
    ensures Split(file[lo..hi], NL) == Split(file[lo..m], NL) + Split(file[m + 1..hi], NL)
  {
    var s := file[lo..hi];
    SplitAt(s, m - lo, NL);
    assert s[..m - lo] == file[lo..m] && s[m - lo + 1..] == file[m + 1..hi];
  }

  /** Starting on a newline or just after it makes no difference. */
  lemma LinesSkipNewline(file: string, lo: nat, hi: nat)
    requires lo < hi <= |file| && file[lo] == NL
    ensures LinesIn(file, lo, hi) == LinesIn(file, lo + 1, hi)
  {
    LinesSplit(file, lo, lo, hi);
    LinesInEmpty(file, lo);
  }

  /** Nor does stopping on a newline or just after it. */
  lemma LinesStopNewline(file: string, lo: nat, hi: nat)
    requires lo <= hi < |file| && file[hi] == NL
    ensures LinesIn(file, lo, hi) == LinesIn(file, lo, hi + 1)
  {
    LinesSplit(file, lo, hi, hi + 1);
    LinesInEmpty(file, hi + 1);
  }

  lemma LinesInGrow(file: string, grown: string, lo: nat, hi: nat)
    requires lo <= hi <= |file| && file <= grown
    ensures LinesIn(grown, lo, hi) == LinesIn(file, lo, hi)
  {
    assert grown[lo..hi] == file[lo..hi];
  }

  /** The first newline of a stretch that has one. */
  lemma NextNewline(file: string, lo: nat, hi: nat) returns (m: nat)
    requires lo <= hi <= |file| && NL in file[lo..hi]
    ensures lo <= m < hi && file[m] == NL && NL !in file[lo..m]
  {
    var s := file[lo..hi];
    var k := First(s, NL);
    m := lo + k;
    assert s[..k] == file[lo..m];
  }

  /** The last one. */
  lemma FinalNewline(file: string, lo: nat, hi: nat) returns (m: nat)
    requires lo <= hi <= |file| && NL in file[lo..hi]
    ensures lo <= m < hi && file[m] == NL && NL !in file[m + 1..hi]
  {
    var s := file[lo..hi];
    var k := Last(s, NL);
    m := lo + k;
    assert s[k + 1..] == file[m + 1..hi];
  }

  /** What a line of file[lo..hi] is, said without splitting: a non-empty stretch holding no newline
      that cannot be made longer on either side. */
  ghost predicate IsLine(file: string, lo: nat, hi: nat, l: Line)
    requires lo <= hi <= |file|
  {
    && lo <= l.offset < l.offset + l.size <= hi
    && l.message == file[l.offset..l.offset + l.size]
    && NL !in l.message
    && (l.offset == lo || file[l.offset - 1] == NL)
    && (l.offset + l.size == hi || file[l.offset + l.size] == NL)
  }

  /** Each line starts after the separator of the one before it. */
  ghost predicate Apart(ls: seq<Line>) {
    forall i, j :: 0 <= i < j < |ls| ==> ls[i].offset + ls[i].size < ls[j].offset
  }

  lemma NoNewlineAt(file: string, lo: nat, hi: nat, i: nat)
    requires lo <= i < hi <= |file| && NL !in file[lo..hi]
    ensures file[i] != NL
  {
    assert file[i] == file[lo..hi][i - lo];
  }

  lemma IsLineAround(file: string, lo: nat, m: nat, hi: nat, l: Line)
    requires lo <= m < hi <= |file| && file[m] == NL
    ensures IsLine(file, lo, hi, l) <==> IsLine(file, lo, m, l) || IsLine(file, m + 1, hi, l)
  {
    if IsLine(file, lo, hi, l) {
      forall i | l.offset <= i < l.offset + l.size ensures file[i] != NL {
        NoNewlineAt(file, l.offset, l.offset + l.size, i);
      }
    }
  }

  /** LinesIn is exactly the set of maximal newline-free stretches, each once, in file order. */
  lemma {:induction false} LinesExact(file: string, lo: nat, hi: nat)
    requires lo <= hi <= |file|
    ensures forall l :: l in LinesIn(file, lo, hi) <==> IsLine(file, lo, hi, l)
    ensures Apart(LinesIn(file, lo, hi))
    decreases hi - lo
  {
    if NL in file[lo..hi] {
      var m := NextNewline(file, lo, hi);
      LinesSplit(file, lo, m, hi);
      LinesExact(file, lo, m);
      LinesExact(file, m + 1, hi);
      forall l ensures IsLine(file, lo, hi, l) <==> IsLine(file, lo, m, l) || IsLine(file, m + 1, hi, l) {
        IsLineAround(file, lo, m, hi, l);
      }
      ApartAround(file, lo, m, hi, LinesIn(file, lo, m), LinesIn(file, m + 1, hi));
    } else {
      RunExact(file, lo, hi);
    }
  }

  /** Lines on either side of a newline. */
  lemma ApartAround(file: string, lo: nat, m: nat, hi: nat, a: seq<Line>, b: seq<Line>)
    requires lo <= m < hi <= |file| && Apart(a) && Apart(b)
    requires (forall l :: l in a ==> IsLine(file, lo, m, l)) && (forall l :: l in b ==> IsLine(file, m + 1, hi, l))
    ensures Apart(a + b)
  {
    forall i, j | 0 <= i < |a| && 0 <= j < |b| ensures a[i].offset + a[i].size < b[j].offset {
      assert a[i] in a && b[j] in b;
    }
  }

  lemma RunExact(file: string, lo: nat, hi: nat)
    requires lo <= hi <= |file| && NL !in file[lo..hi]
    ensures forall l :: l in LinesIn(file, lo, hi) <==> IsLine(file, lo, hi, l)
    ensures Apart(LinesIn(file, lo, hi))
  {
    if lo < hi {
      LinesInRun(file, lo, hi);
      forall i | lo <= i < hi ensures file[i] != NL {
        NoNewlineAt(file, lo, hi, i);
      }
    } else {
      LinesInEmpty(file, lo);
    }
  }

  /** A stretch that does not end on a newline has a last line, and it ends there. */
  lemma LastLineEnds(file: string, lo: nat, hi: nat)
    requires lo < hi <= |file| && file[hi - 1] != NL
    ensures var ls := LinesIn(file, lo, hi);
      ls != [] && ls[|ls| - 1].offset + ls[|ls| - 1].size == hi
  {
    if NL in file[lo..hi] {
      var m := FinalNewline(file, lo, hi);
      LinesSplit(file, lo, m, hi);
      LinesInRun(file, m + 1, hi);
    } else {
      LinesInRun(file, lo, hi);
    }
  }

  /** A stretch that does not start on a newline has a first line, and it starts there. */
  lemma FirstLineStarts(file: string, lo: nat, hi: nat)
    requires lo < hi <= |file| && file[lo] != NL
    ensures LinesIn(file, lo, hi) != [] && LinesIn(file, lo, hi)[0].offset == lo
  {
    if NL in file[lo..hi] {
      var m := NextNewline(file, lo, hi);
      LinesSplit(file, lo, m, hi);
      LinesInRun(file, lo, m);
    } else {
      LinesInRun(file, lo, hi);
    }
  }

  /** No more lines than bytes. */
  lemma LinesInCount(file: string, lo: nat, hi: nat)
    requires lo <= hi <= |file|
    ensures |LinesIn(file, lo, hi)| <= hi - lo
    decreases hi - lo
  {
    if lo == hi {
      LinesInEmpty(file, lo);
    } else if NL in file[lo..hi] {
      var m := NextNewline(file, lo, hi);
      LinesSplit(file, lo, m, hi);
      LinesInCount(file, lo, m);
      LinesInCount(file, m + 1, hi);
    } else {
      LinesInRun(file, lo, hi);
    }
  }

  /** LinesExact read by index. */
  lemma LinesAreLines(file: string, lo: nat, hi: nat)
    requires lo <= hi <= |file|
    ensures forall i :: 0 <= i < |LinesIn(file, lo, hi)| ==> IsLine(file, lo, hi, LinesIn(file, lo, hi)[i])
    ensures Apart(LinesIn(file, lo, hi))
  {
    LinesExact(file, lo, hi);
    forall i | 0 <= i < |LinesIn(file, lo, hi)|
      ensures IsLine(file, lo, hi, LinesIn(file, lo, hi)[i])
    {
      assert LinesIn(file, lo, hi)[i] in LinesIn(file, lo, hi);
    }
  }

  /** Lines inside a stretch, none empty. */
  ghost predicate Placed(ls: seq<Line>, lo: nat, hi: nat) {
    forall i :: 0 <= i < |ls| ==> lo <= ls[i].offset < ls[i].offset + ls[i].size <= hi
  }

  lemma LinesPlaced(file: string, lo: nat, hi: nat)
    requires lo <= hi <= |file|
    ensures Placed(LinesIn(file, lo, hi), lo, hi) && Apart(LinesIn(file, lo, hi))
  {
    LinesAreLines(file, lo, hi);
    forall i | 0 <= i < |LinesIn(file, lo, hi)| ensures LinesIn(file, lo, hi)[i].size > 0 {
      assert IsLine(file, lo, hi, LinesIn(file, lo, hi)[i]);
    }
  }

  /** The i-th line of a stretch: where it ends there is its newline, or the stretch ends. */
  lemma LineAt(file: string, lo: nat, hi: nat, i: nat)
    requires lo <= hi <= |file| && i < |LinesIn(file, lo, hi)|
    ensures var e := LinesIn(file, lo, hi)[i].offset + LinesIn(file, lo, hi)[i].size;
      lo < e <= hi && file[e - 1] != NL && (e == hi || file[e] == NL)
  {
    LinesAreLines(file, lo, hi);
    var l := LinesIn(file, lo, hi)[i];
    assert IsLine(file, lo, hi, l);
    NoNewlineAt(file, l.offset, l.offset + l.size, l.offset + l.size - 1);
  }

  /** The end of the k-th line cuts the list of lines after k: the byte there is the line's newline,
      or the stretch ends there. */
  lemma LinesCut(file: string, lo: nat, hi: nat, k: nat)
    requires lo <= hi <= |file| && 0 < k <= |LinesIn(file, lo, hi)|
    ensures var all := LinesIn(file, lo, hi);
      var e := all[k - 1].offset + all[k - 1].size;
      && lo < e <= hi && (e == hi || file[e] == NL)
      && LinesIn(file, lo, e) == all[..k] && LinesIn(file, e, hi) == all[k..]
  {
    var all := LinesIn(file, lo, hi);
    var e := all[k - 1].offset + all[k - 1].size;
    LinesPlaced(file, lo, hi);
    LineAt(file, lo, hi, k - 1);
    if e == hi {
      LinesInEmpty(file, hi);
      CutAtEnd(all, lo, hi, k);
    } else {
      LinesSplit(file, lo, e, hi);
      LinesSkipNewline(file, e, hi);
      LastLineEnds(file, lo, e);
      CutBetween(all, LinesIn(file, lo, e), LinesIn(file, e, hi), lo, hi, k);
    }
  }

  lemma CutAtEnd(all: seq<Line>, lo: nat, hi: nat, k: nat)
    requires Placed(all, lo, hi) && Apart(all) && 0 < k <= |all| && all[k - 1].offset + all[k - 1].size == hi
    ensures all[..k] == all && all[k..] == []
  {
    var last := all[|all| - 1];
    assert last.offset + last.size <= hi;
    assert |all| == k;
  }

  /** Of lines that lie apart no two end at the same place. */
  lemma CutBetween(all: seq<Line>, a: seq<Line>, b: seq<Line>, lo: nat, hi: nat, k: nat)
    requires all == a + b && Placed(all, lo, hi) && Apart(all) && a != [] && 0 < k <= |all|
    requires all[k - 1].offset + all[k - 1].size == a[|a| - 1].offset + a[|a| - 1].size
    ensures all[..k] == a && all[k..] == b
  {
    assert all[|a| - 1] == a[|a| - 1];
    assert |a| == k;
  }
}
