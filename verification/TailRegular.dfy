/** The backwards scan over any number of windows, on files as logs usually are. */
module TailRegular {
  import opened Prelude
  import opened Text
  import opened Lines
  import opened FilesReader
  import opened TailN

  /** The bytes before `e` end in a newline, hold no blank line between two others, and no line of CHUNK_SIZE - 1
      bytes or more. */
  ghost predicate Regular(file: string, e: nat) {
    && 0 < e <= |file| && file[e - 1] == NL
    && (forall i :: 0 < i < e ==> !BlankEnds(file, i))
    && (forall i: nat :: i + CHUNK_SIZE - 1 <= e ==> NewlineNear(file, i))
  }

  /** A newline right after another. */
  predicate BlankEnds(file: string, i: nat)
    requires 0 < i < |file|
  {
    file[i] == NL && file[i - 1] == NL
  }

  predicate NewlineNear(file: string, i: nat)
    requires i + CHUNK_SIZE - 1 <= |file|
  {
    NL in file[i..i + CHUNK_SIZE - 1]
  }

  lemma NotBlank(file: string, e: nat, i: nat)
    requires Regular(file, e) && 0 < i < e && file[i] == NL
    ensures file[i - 1] != NL
  {
    assert !BlankEnds(file, i);
  }

  lemma NearNewline(file: string, e: nat, i: nat) returns (y: nat)
    requires Regular(file, e) && i + CHUNK_SIZE - 1 <= e
    ensures i <= y < i + CHUNK_SIZE - 1 && file[y] == NL
  {
    assert NewlineNear(file, i);
    y := i + First(file[i..i + CHUNK_SIZE - 1], NL);
  }

  lemma PiecesSplit(file: string, a: nat, x: nat, b: nat)
    requires a <= x < b <= |file| && file[x] == NL
    ensures Pieces(file, a, b) == Pieces(file, a, x) + Pieces(file, x + 1, b)
  {
    SplitAround(file, a, x, b);
  }

  /** Between two newlines every piece is a line. */
  lemma {:induction false} PiecesAreLines(file: string, e: nat, a: nat, b: nat)
    requires Regular(file, e) && 0 < a < b < e && file[a - 1] == NL && file[b] == NL
    ensures Pieces(file, a, b) == |LinesIn(file, a, b)|
    decreases b - a
  {
    if NL in file[a..b] {
      var x := NextNewline(file, a, b);
      NotBlank(file, e, x);
      NotBlank(file, e, b);
      PiecesSplit(file, a, x, b);
      LinesSplit(file, a, x, b);
      SplitNone(file[a..x], NL);
      LinesInRun(file, a, x);
      PiecesAreLines(file, e, x + 1, b);
    } else {
      SplitNone(file[a..b], NL);
      LinesInRun(file, a, b);
    }
  }

  /** After a newline of the last window there is one piece more than lines: the blank one after the last newline. */
  lemma PiecesAtEnd(file: string, e: nat, a: nat)
    requires Regular(file, e) && 0 < a < e && file[a - 1] == NL
    ensures Pieces(file, a, e) == |LinesIn(file, a, e)| + 1
  {
    NotBlank(file, e, e - 1);
    PiecesSplit(file, a, e - 1, e);
    PiecesAreLines(file, e, a, e - 1);
    LinesStopNewline(file, a, e - 1);
  }

  /** A stretch that ends before a newline has a line, */
  lemma SomeLine(file: string, e: nat, q: nat, x: nat)
    requires Regular(file, e) && q < x < e && file[x] == NL
    ensures LinesIn(file, q, x) != []
  {
    NotBlank(file, e, x);
    LastLineEnds(file, q, x);
  }

  /** and one of CHUNK_SIZE bytes has two. */
  lemma TwoLines(file: string, e: nat, q: nat, x: nat)
    requires Regular(file, e) && x < e && file[x] == NL && q + CHUNK_SIZE == x
    ensures |LinesIn(file, q, x)| >= 2
  {
    var y := NearNewline(file, e, q + 1);
    NotBlank(file, e, x);
    SomeLine(file, e, q, y);
    SomeLine(file, e, y + 1, x);
    LinesSplit(file, q, y, x);
  }

  /** Stepping back over fewer pieces than wanted steps back over all of them. */
  lemma {:induction false} BackOverAll(ps: seq<string>, want: int)
    requires |ps| < want
    ensures Back(ps, want) == Extent(ps)
  {
    if ps != [] {
      BackOverAll(ps[1..], if ps[0] != "" then want - 1 else want);
    }
  }

  lemma {:induction false} StrideAll(s: string, want: int)
    requires |Split(s, NL)| < want
    ensures Stride(s, want) == |s| + 1
  {
    PieceCount(s);
    BackOverAll(Split(Rev(s), NL), want);
    ExtentSplit(Rev(s));
  }

  lemma FindFirst(file: string, e: nat, x: nat) returns (m: nat)
    requires Regular(file, e) && CHUNK_SIZE < x < e && file[x] == NL
    ensures FirstOfWindow(file, x, m) && m + 1 < x
  {
    var o := x - CHUNK_SIZE;
    var s := file[o..x];
    var y := NearNewline(file, e, o);
    assert s[y - o] == NL;
    m := NextNewline(file, o, x);
  }

  /** The lines from `q`, counted at two newlines. */
  lemma CountAt(file: string, q: nat, m: nat, x: nat, e: nat)
    requires q <= m < x < e <= |file| && file[m] == NL && file[x] == NL
    ensures |LinesIn(file, q, e)| == |LinesIn(file, q, m)| + |LinesIn(file, m + 1, x)| + |LinesIn(file, x, e)|
  {
    LinesSplit(file, q, m, e);
    LinesSplit(file, m + 1, x, e);
    LinesSkipNewline(file, x, e);
  }

  /** A round that settles on the window before `x`, with fewer pieces than wanted after it, has stepped back from the
      window's start instead of its end: to the top, or over more than n lines. */
  lemma {:induction false} TooMany(file: string, e: nat, n: int, x: nat, m: nat, kept: string)
    requires Regular(file, e) && x < e && file[x] == NL && FirstOfWindow(file, x, m)
    requires m + 1 < x && kept == file[m + 1..x]
    requires |LinesIn(file, x, e)| + 1 + |Split(kept, NL)| >= n > |LinesIn(file, x, e)| + 1
    ensures Overshoots(file, e, n, x, Max(x - CHUNK_SIZE - Stride(kept, n), 0))
  {
    var q := Max(x - CHUNK_SIZE - Stride(kept, n), 0);
    StridePositive(kept, n);
    if q > 0 {
      CountAt(file, q, m, x, e);
      PiecesAreLines(file, e, m + 1, x);
      if |Split(kept, NL)| < n {
        StrideAll(kept, n);
        TwoLines(file, e, q, m);
      } else {
        SomeLine(file, e, q, m);
      }
    }
  }

  /** One round of the scan decides it, or leads to the next. */
  lemma ScanStep(file: string, skip: int, o: nat, found: nat, r: Round)
    requires r == ScanRound(Up(file), skip, o, CHUNK_SIZE, o, found)
    ensures Ended(file, skip, Onward(o, found)) == Ended(file, skip, r)
  {
  }

  /** A round over the window that ends at `x`. */
  lemma {:induction false} CutRound(file: string, n: int, o: nat, m: nat, kept: string, found: nat)
    requires o > 0 && FirstOfWindow(file, o + CHUNK_SIZE, m) && kept == file[m + 1..o + CHUNK_SIZE] && n >= 1
    ensures m >= o
    ensures ScanRound(Up(file), -n, o, CHUNK_SIZE, o, found)
         == Kept(n, o, m - o, o, found, |Split(kept, NL)|, Stride(kept, n))
  {
    var w := Window(file, o, CHUNK_SIZE);
    assert w[..m - o] == file[o..m] && w[m - o + 1..] == kept;
    RoundCut(file, n, o, o, found, w, m - o, kept);
  }

  /** A round over the window at the top sets the offset to the top, whatever it finds. */
  lemma TopRound(file: string, n: int, found: nat)
    requires |file| >= CHUNK_SIZE && n >= 1
    ensures var r := ScanRound(Up(file), -n, 0, CHUNK_SIZE, 0, found); r.Settled? && r.pos <= 0
  {
    var w := Window(file, 0, CHUNK_SIZE);
    FetchTop(file, CHUNK_SIZE, w);
    JudgeKept(w, 0, n, 0, 0, found);
  }

  /** A round over the window that starts at `o` and is cut at `m`, in terms of where it leaves the reader. */
  lemma {:induction false} RoundEnds(file: string, n: int, o: nat, m: nat, kept: string, found: nat)
    requires o > 0 && FirstOfWindow(file, o + CHUNK_SIZE, m) && kept == file[m + 1..o + CHUNK_SIZE] && n >= 1
    requires found + |Split(kept, NL)| >= n || m < CHUNK_SIZE
    ensures Ended(file, -n, Onward(o, found))
         == if found + |Split(kept, NL)| >= n then Max(o - Stride(kept, n), 0) else 0
  {
    CutRound(file, n, o, m, kept, found);
    ScanStep(file, -n, o, found, Kept(n, o, m - o, o, found, |Split(kept, NL)|, Stride(kept, n)));
  }

  lemma {:induction false} RoundGoesOn(file: string, n: int, o: nat, m: nat, kept: string, found: nat, next: nat,
                                       more: nat)
    requires o > 0 && FirstOfWindow(file, o + CHUNK_SIZE, m) && kept == file[m + 1..o + CHUNK_SIZE] && n >= 1
    requires more == found + |Split(kept, NL)| < n && next == m - CHUNK_SIZE
    ensures Ended(file, -n, Onward(o, found)) == Ended(file, -n, Onward(next, more))
  {
    CutRound(file, n, o, m, kept, found);
    ScanStep(file, -n, o, found, Onward(next, more));
  }

  /** At the top, or before more than n lines. */
  ghost predicate Overshoots(file: string, e: nat, n: int, x: nat, q: int)
    requires x <= e <= |file|
  {
    0 <= q < x && (q == 0 || |LinesIn(file, q, e)| > n)
  }

  /** A later round of the scan, and all rounds after it: the window ends at a newline, and the pieces found so far are
      the lines from there and the blank one at the end. */
  lemma {:induction false} LaterRounds(file: string, e: nat, n: int, o: nat, x: nat, found: nat)
    returns (q: int)
    requires Regular(file, e) && x == o + CHUNK_SIZE < e && file[x] == NL
    requires found == |LinesIn(file, x, e)| + 1 < n
    ensures q == Ended(file, -n, Onward(o, found)) && Overshoots(file, e, n, x, q)
    decreases o
  {
    if o == 0 {
      TopRound(file, n, found);
      ScanStep(file, -n, 0, found, ScanRound(Up(file), -n, 0, CHUNK_SIZE, 0, found));
      q := 0;
    } else {
      var m := FindFirst(file, e, x);
      var kept := file[m + 1..x];
      if found + |Split(kept, NL)| >= n {
        RoundEnds(file, n, o, m, kept, found);
        TooMany(file, e, n, x, m, kept);
        q := Max(o - Stride(kept, n), 0);
      } else if m < CHUNK_SIZE {
        RoundEnds(file, n, o, m, kept, found);
        q := 0;
      } else {
        var next, more := m - CHUNK_SIZE, found + |Split(kept, NL)|;
        FoundMore(file, e, m, x, kept);
        RoundGoesOn(file, n, o, m, kept, found, next, more);
        q := LaterRounds(file, e, n, next, m, more);
      }
    }
  }

  lemma {:induction false} FoundMore(file: string, e: nat, m: nat, x: nat, kept: string)
    requires Regular(file, e) && m + 1 < x < e && file[m] == NL && file[x] == NL && kept == file[m + 1..x]
    ensures |LinesIn(file, m, e)| == |Split(kept, NL)| + |LinesIn(file, x, e)|
  {
    PiecesAreLines(file, e, m + 1, x);
    CountAt(file, m, m, x, e);
    LinesInEmpty(file, m);
  }

  /** No fewer lines from the top than from anywhere else. */
  lemma CountFromTop(file: string, q: nat, e: nat)
    requires q <= e <= |file|
    ensures |LinesIn(file, q, e)| <= |LinesIn(file, 0, e)|
  {
    if NL in file[q..e] {
      var y := NextNewline(file, q, e);
      LinesSplit(file, 0, y, e);
      LinesSplit(file, q, y, e);
      RunFromTop(file, q, y);
    } else {
      RunFromTop(file, q, e);
    }
  }

  lemma RunFromTop(file: string, q: nat, e: nat)
    requires q <= e <= |file| && NL !in file[q..e]
    ensures |LinesIn(file, q, e)| <= |LinesIn(file, 0, e)|
  {
    if q < e {
      LinesInRun(file, q, e);
      NoNewlineAt(file, q, e, e - 1);
      LastLineEnds(file, 0, e);
    } else {
      LinesInEmpty(file, q);
    }
  }

  /** What a request for the last n lines reads, with L whole lines in the last window: exactly the last n if n <= L;
      one too few if n == L + 1, because the blank piece after the last newline counts as found; everything before the
      cursor, or more lines than wanted, if n is larger still. */
  lemma TailCounts(file: string, e: nat, n: int, m: nat)
    requires Regular(file, e) && FirstOfWindow(file, e, m) && n >= 1
    ensures var q, whole := TailStart(file, e, -n), |LinesIn(file, m + 1, e)|;
      && (n <= whole ==> TailedTo(file, 0, e, n, q))
      && (n == whole + 1 ==> LinesIn(file, q, e) == LinesIn(file, m + 1, e) && |LinesIn(file, 0, e)| >= n)
      && (n > whole + 1 ==> q == 0 || |LinesIn(file, q, e)| > n)
  {
    NotLast(file, e, m);
    PiecesAtEnd(file, e, m + 1);
    if n <= Pieces(file, m + 1, e) {
      CountsNear(file, e, n, m);
    } else {
      var q := CountsFar(file, e, n, m);
    }
  }

  lemma CountsNear(file: string, e: nat, n: int, m: nat)
    requires Regular(file, e) && FirstOfWindow(file, e, m) && 0 < m && m + 1 < e
    requires 1 <= n <= |LinesIn(file, m + 1, e)| + 1
    requires Pieces(file, m + 1, e) == |LinesIn(file, m + 1, e)| + 1
    ensures var q, whole := TailStart(file, e, -n), |LinesIn(file, m + 1, e)|;
      && (n <= whole ==> TailedTo(file, 0, e, n, q))
      && (n == whole + 1 ==> LinesIn(file, q, e) == LinesIn(file, m + 1, e) && |LinesIn(file, 0, e)| >= n)
  {
    TailFirstWindow(file, e, n, m);
    TailExactIff(file, e, n, m);
    LastOfFew(LinesIn(file, m + 1, e), n);
    LinesSplit(file, 0, m, e);
    SomeLine(file, e, 0, m);
  }

  lemma CountsFar(file: string, e: nat, n: int, m: nat) returns (q: int)
    requires Regular(file, e) && FirstOfWindow(file, e, m) && m + 1 < e && n > |LinesIn(file, m + 1, e)| + 1
    requires Pieces(file, m + 1, e) == |LinesIn(file, m + 1, e)| + 1
    ensures q == TailStart(file, e, -n) && (q == 0 || (q < m && |LinesIn(file, q, e)| > n))
  {
    if m < CHUNK_SIZE {
      TailTopIff(file, e, n, m);
      q := 0;
    } else {
      q := StartLater(file, e, n, m, m - CHUNK_SIZE, Pieces(file, m + 1, e));
    }
  }

  lemma StartLater(file: string, e: nat, n: int, m: nat, o: nat, found: nat) returns (q: int)
    requires Regular(file, e) && FirstOfWindow(file, e, m) && m == o + CHUNK_SIZE && m + 1 < e
    requires found == Pieces(file, m + 1, e) == |LinesIn(file, m + 1, e)| + 1 < n
    ensures q == TailStart(file, e, -n) && Overshoots(file, e, n, m, q)
  {
    StartWindow(file, e, n, m, file[m + 1..e], Onward(o, found));
    LinesSkipNewline(file, m, e);
    q := LaterRounds(file, e, n, o, m, found);
  }

  lemma LastOfFew(ls: seq<Line>, n: int)
    requires n >= 0
    ensures |ls| <= n ==> LastN(ls, n) == ls
  {
  }

  /** The first newline of a regular window is not its last byte. */
  lemma NotLast(file: string, e: nat, m: nat)
    requires Regular(file, e) && FirstOfWindow(file, e, m)
    ensures 0 < m && m + 1 < e
  {
    var o := e - CHUNK_SIZE;
    var y := NearNewline(file, e, o);
    NoNewlineBefore(file, o, m, y);
  }

  lemma NoNewlineBefore(file: string, o: nat, m: nat, i: nat)
    requires o <= m <= |file| && NL !in file[o..m] && o <= i < |file| && file[i] == NL
    ensures m <= i
  {
    if i < m {
      NoNewlineAt(file, o, m, i);
    }
  }

  /** So on such a file a tail request is exact if and only if the last window holds the n lines whole, or it holds
      fewer than n - 1 and the file no more than n. */
  lemma TailRegularIff(file: string, e: nat, n: int, m: nat)
    requires Regular(file, e) && FirstOfWindow(file, e, m) && n >= 1
    ensures var whole := |LinesIn(file, m + 1, e)|;
      TailedTo(file, 0, e, n, TailStart(file, e, -n))
      <==> n <= whole || (n > whole + 1 && |LinesIn(file, 0, e)| <= n)
  {
    TailCounts(file, e, n, m);
    var q := TailStart(file, e, -n);
    CountFromTop(file, q, e);
    if q == 0 {
      WholeTail(file, e, n);
    }
  }
}
