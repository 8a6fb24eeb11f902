/** The whole tail request: the backwards scan, then reading on to the end of the file. */
module TailRuns {
  import opened Prelude
  import opened Text
  import opened Lines
  import opened FilesReader
  import opened Refills
  import opened WholeRun
  import opened TailN
  import opened TailRegular

  /** Some reads of a request for the last n lines, cursor=END and skip=-n. */
  function TailRun(file: string, n: int, rounds: nat): Served {
    Serve(Settings(-n, 0, false), Progress(TailStart(file, |file|, -n), [], 0, 0), file, rounds)
  }

  /** The request ends with exactly the last n lines of the file. */
  ghost predicate Tails(file: string, n: int)
    requires n >= 0
  {
    exists rounds ::
      TailRun(file, n, rounds).finished && TailRun(file, n, rounds).delivered == LastN(LinesFrom(file, 0), n)
  }

  /** It does so if and only if the file is readable from where the scan ends, and these are the lines from there. */
  lemma TailsIff(file: string, n: int, q: nat)
    requires n >= 1 && q == TailStart(file, |file|, -n)
    ensures Tails(file, n) <==> Readable(file, q) && LinesFrom(file, q) == LastN(LinesFrom(file, 0), n)
  {
    var cfg := Settings(-n, 0, false);
    if Readable(file, q) {
      forall rounds: nat
        ensures TailRun(file, n, rounds).finished ==> TailRun(file, n, rounds).delivered == LinesFrom(file, q)
        ensures rounds > 2 * |file| ==> TailRun(file, n, rounds).finished
      {
        WholeRunExact(cfg, file, q, rounds);
      }
      assert TailRun(file, n, 2 * |file| + 1).finished;
    } else {
      LinesAreLines(file, 0, |file|);
      forall rounds: nat | TailRun(file, n, rounds).finished ensures !Apart(TailRun(file, n, rounds).delivered) {
        UnreadableTorn(cfg, file, q, rounds);
      }
    }
  }

  predicate EndsInNewline(file: string) {
    file != "" && file[|file| - 1] == NL
  }

  /** Where the scan of a file of at most one window ends: just before the first line wanted, or at the top. */
  lemma ShortStart(file: string, n: int)
    requires 0 < |file| <= CHUNK_SIZE && file != [NL] && n >= 1
    ensures var all := LinesFrom(file, 0);
      TailStart(file, |file|, -n) == if n <= |all| then Max(all[|all| - n].offset - 1, 0) else 0
  {
    assert file[0..|file|] == file;
    TopStart(file, |file|, n, file);
    StrideReach(file, 0, |file|, file, n);
    LinesAtMostPieces(file, 0, |file|);
  }

  /** It is the top if and only if all lines are wanted and at most one newline comes before them. */
  lemma ShortAtTop(file: string, n: int)
    requires 0 < |file| <= CHUNK_SIZE && file != [NL] && n >= 1
    ensures var all := LinesFrom(file, 0);
      TailStart(file, |file|, -n) == 0 <==> |all| < n || (|all| == n && all[0].offset <= 1)
  {
    var all := LinesFrom(file, 0);
    ShortStart(file, n);
    LinesAreLines(file, 0, |file|);
    if n < |all| {
      assert all[0].offset + all[0].size < all[|all| - n].offset;
      assert IsLine(file, 0, |file|, all[0]);
    }
  }

  /** From the top a file of at most one window can be read unless it fills the window and does not end in a newline. */
  lemma ShortFromTop(file: string)
    requires 0 < |file| <= CHUNK_SIZE
    ensures Readable(file, 0) <==> |file| < CHUNK_SIZE || EndsInNewline(file)
  {
    if EndsInNewline(file) {
      DenseNearEnd(file, 0);
    }
  }

  lemma ShortReadable(file: string, n: int)
    requires |file| <= CHUNK_SIZE && n >= 1
    ensures Readable(file, TailStart(file, |file|, -n)) <==> ShortTails(file, n)
  {
    var q := TailStart(file, |file|, -n);
    TailExactShort(file, |file|, n);
    if file != "" && file != [NL] {
      ShortAtTop(file, n);
      ShortStart(file, n);
      if q == 0 {
        ShortFromTop(file);
      } else if q < |file| {
        ReadableOn(file, q);
        if EndsInNewline(file) {
          DenseNearEnd(file, q);
        } else {
          BreaksDense(file, q);
        }
      }
    }
  }

  /** A file of at most one window. */
  predicate ShortTails(file: string, n: int) {
    var all := LinesFrom(file, 0);
    || file == "" || EndsInNewline(file)
    || (|file| < CHUNK_SIZE && (|all| < n || (|all| == n && all != [] && all[0].offset <= 1)))
  }

  /** A longer one whose last window, cut at its first newline `m`, settles the scan. */
  predicate WindowTails(file: string, n: int, m: nat)
    requires FirstOfWindow(file, |file|, m)
  {
    var whole := LinesIn(file, m + 1, |file|);
    EndsInNewline(file) && (|whole| >= n || whole == LinesFrom(file, 0))
  }

  /** A regular one whose last window does not settle it. */
  predicate RegularTails(file: string, n: int)
    requires |file| >= CHUNK_SIZE
  {
    |LinesFrom(file, 0)| <= n && file[CHUNK_SIZE - 1] == NL
  }

  /** The last line of the file fills its last window, newline not written. */
  predicate LongLast(file: string) {
    |file| > CHUNK_SIZE && NL !in file[|file| - CHUNK_SIZE..|file|]
  }

  /** No start before that window is one to read such a file from. */
  lemma LongLastUnreadable(file: string, q: nat)
    requires LongLast(file) && q <= |file| - CHUNK_SIZE
    ensures !Readable(file, q)
  {
    NoNewlineAt(file, |file| - CHUNK_SIZE, |file|, |file| - 1);
    if Parks(file, q) {
      var z := if q == 0 then CHUNK_SIZE - 1 else LastNewline(file, q);
      BreaksDense(file, z);
      var k :| z <= k < |file| - 1 && !Bridged(file, k);
      assert !Dense(file, q);
    }
  }

  /** A longer one whose last window does not settle the scan, with the top less than a window before that newline. */
  ghost predicate TopTails(file: string, n: int) {
    |LinesFrom(file, 0)| <= n && Readable(file, 0)
  }

  lemma TopReadable(file: string, n: int, m: nat)
    requires FirstOfWindow(file, |file|, m) && m < CHUNK_SIZE && n > Pieces(file, m + 1, |file|)
    ensures var q := TailStart(file, |file|, -n);
      Readable(file, q) && LinesFrom(file, q) == LastN(LinesFrom(file, 0), n) <==> TopTails(file, n)
  {
    TailTopIff(file, |file|, n, m);
  }

  /** When cursor=END&skip=-n is right, told from the file: for every file of at most one window, for every longer file
      whose last window settles the scan, has no newline or is followed by the top, and for every regular file. */
  ghost predicate TailSucceeds(file: string, n: int, m: nat)
    requires |file| <= CHUNK_SIZE || LongLast(file) || FirstOfWindow(file, |file|, m)
  {
    if |file| <= CHUNK_SIZE then ShortTails(file, n)
    else if LongLast(file) then false
    else if n <= Pieces(file, m + 1, |file|) then WindowTails(file, n, m)
    else if m < CHUNK_SIZE then TopTails(file, n)
    else RegularTails(file, n)
  }

  lemma TailRunIff(file: string, n: int, m: nat)
    requires n >= 1 && (|file| <= CHUNK_SIZE || LongLast(file) || FirstOfWindow(file, |file|, m))
    requires |file| <= CHUNK_SIZE || LongLast(file) || m < CHUNK_SIZE || n <= Pieces(file, m + 1, |file|)
          || Regular(file, |file|)
    ensures Tails(file, n) <==> TailSucceeds(file, n, m)
  {
    TailsIff(file, n, TailStart(file, |file|, -n));
    if |file| <= CHUNK_SIZE {
      ShortReadable(file, n);
      TailExactShort(file, |file|, n);
    } else if LongLast(file) {
      LongLineBefore(file, |file|, n);
      LongLastUnreadable(file, TailStart(file, |file|, -n));
    } else if n <= Pieces(file, m + 1, |file|) {
      WindowReadable(file, n, m);
    } else if m < CHUNK_SIZE {
      TopReadable(file, n, m);
    } else {
      RegularReadable(file, n, m);
    }
  }

  lemma WindowReadable(file: string, n: int, m: nat)
    requires FirstOfWindow(file, |file|, m) && 1 <= n <= Pieces(file, m + 1, |file|)
    ensures var q := TailStart(file, |file|, -n);
      Readable(file, q) && LinesFrom(file, q) == LastN(LinesFrom(file, 0), n) <==> WindowTails(file, n, m)
  {
    var q := TailStart(file, |file|, -n);
    TailExactIff(file, |file|, n, m);
    WindowStart(file, |file|, n, m);
    AboveTop(file, m);
    ReadableOn(file, q);
    if EndsInNewline(file) {
      DenseNearEnd(file, q);
    } else {
      BreaksDense(file, q);
    }
  }

  lemma AboveTop(file: string, m: nat)
    requires FirstOfWindow(file, |file|, m)
    ensures m > 0
  {
  }

  lemma RegularReadable(file: string, n: int, m: nat)
    requires Regular(file, |file|) && FirstOfWindow(file, |file|, m) && n > Pieces(file, m + 1, |file|)
    ensures var q := TailStart(file, |file|, -n);
      Readable(file, q) && LinesFrom(file, q) == LastN(LinesFrom(file, 0), n) <==> RegularTails(file, n)
  {
    var e := |file|;
    NotLast(file, e, m);
    PiecesAtEnd(file, e, m + 1);
    var q := CountsFar(file, e, n, m);
    if q == 0 {
      WholeTail(file, e, n);
      RegularFromTop(file);
    } else {
      CountFromTop(file, q, e);
      TooLong(LinesIn(file, q, e), LinesFrom(file, 0), n);
    }
  }

  lemma TooLong(a: seq<Line>, all: seq<Line>, n: int)
    requires |a| > n >= 0
    ensures a != LastN(all, n)
  {
  }

  lemma RegularFromTop(file: string)
    requires Regular(file, |file|) && |file| > CHUNK_SIZE
    ensures Readable(file, 0) <==> file[CHUNK_SIZE - 1] == NL
  {
    forall i | 0 <= i < |file| - 1 ensures Bridged(file, i) {
      if i + CHUNK_SIZE <= |file| {
        var y := NearNewline(file, |file|, i + 1);
        assert Window(file, i + 1, CHUNK_SIZE - 1)[y - i - 1] == NL;
      } else {
        assert Window(file, i + 1, CHUNK_SIZE - 1)[|file| - 2 - i] == NL;
      }
    }
  }

  /** The last lines of a log whose last line is still being written: when the scan starts behind a newline, the
      request never ends and never shows that line, however many reads the client waits. It starts there for a
      file of at most one window with more than n lines, or n and more than a newline before them, and for a longer
      one whose last window settles the scan. */
  lemma TailNeverEnds(file: string, n: int, m: nat, rounds: nat)
    requires file != "" && !EndsInNewline(file) && n >= 1
    requires |file| <= CHUNK_SIZE || (FirstOfWindow(file, |file|, m) && n <= Pieces(file, m + 1, |file|))
    requires |file| <= CHUNK_SIZE ==>
      var all := LinesFrom(file, 0); |all| > n || (|all| == n && all[0].offset > 1)
    ensures var r, all := TailRun(file, n, rounds), LinesFrom(file, 0);
      !r.finished && all != [] && all[|all| - 1] !in r.delivered
  {
    var q := TailStart(file, |file|, -n);
    if |file| <= CHUNK_SIZE {
      TailExactShort(file, |file|, n);
      ShortAtTop(file, n);
      ShortStart(file, n);
      StartBelowEnd(file, n, q);
    } else {
      WindowStart(file, |file|, n, m);
    }
    NeverFrom(file, n, q, rounds);
  }

  lemma NeverFrom(file: string, n: int, q: nat, rounds: nat)
    requires n >= 0 && q == TailStart(file, |file|, -n) && 0 < q < |file| && file[q] == NL && !EndsInNewline(file)
    ensures var r, all := TailRun(file, n, rounds), LinesFrom(file, 0);
      !r.finished && all != [] && all[|all| - 1] !in r.delivered
  {
    ReadableOn(file, q);
    BreaksDense(file, q);
    var at := FindBarrier(file, q);
    NeverFinishes(Settings(-n, 0, false), file, q, at, Progress(q, [], 0, 0), rounds);
    LastLine(file, at, TailRun(file, n, rounds).delivered);
  }

  lemma LastLine(file: string, at: nat, ls: seq<Line>)
    requires file != "" && !EndsInNewline(file) && at < |file| && Upto(ls, at)
    ensures var all := LinesFrom(file, 0); all != [] && all[|all| - 1] !in ls
  {
    LastLineEnds(file, 0, |file|);
    Beyond(ls, at, LinesFrom(file, 0)[|LinesFrom(file, 0)| - 1]);
  }

  lemma Beyond(ls: seq<Line>, at: nat, l: Line)
    requires Upto(ls, at) && l.offset + l.size > at
    ensures l !in ls
  {
  }

  lemma StartBelowEnd(file: string, n: int, q: nat)
    requires 0 < |file| && 1 <= n <= |LinesFrom(file, 0)|
    requires q == Max(LinesFrom(file, 0)[|LinesFrom(file, 0)| - n].offset - 1, 0)
    ensures q < |file|
  {
    LinesAreLines(file, 0, |file|);
    assert IsLine(file, 0, |file|, LinesFrom(file, 0)[|LinesFrom(file, 0)| - n]);
  }
}
