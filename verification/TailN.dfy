/** Reading the last N lines: the backwards scan of calcOffset and the offset it leaves. */
module TailN {
  import opened Prelude
  import opened Text
  import opened Lines
  import opened FilesReader

  /** The reader of a request with a negative skip, standing at the cursor `e`. */
  function TailConfig(skip: int, e: nat): Config {
    Config(Settings(skip, 0, false), true, e)
  }

  lemma {:induction false} ScanInRange(server: Server, skip: int, offset: nat, length: nat, pos: nat, found: nat)
    requires length <= CHUNK_SIZE && offset <= pos
    ensures Scan(server, skip, offset, length, pos, found).0 <= pos
    ensures server.Up? ==> Scan(server, skip, offset, length, pos, found).1 in {None, Some(EOF)}
    decreases offset
  {
    var r := ScanRound(server, skip, offset, length, pos, found);
    if r.Onward? {
      ScanInRange(server, skip, r.next, CHUNK_SIZE, r.next, r.found);
    }
  }

  /** The scan ends for every file, cursor and skip (its window's offset falls every round), and never
      leaves the range from the top to the cursor. */
  lemma StartInRange(c: Config, server: Server)
    requires c.offset >= 0
    ensures StartOffset(c, server).Ok? ==> StartOffset(c, server).value <= c.offset
    ensures server.Up? ==> StartOffset(c, server).Ok?
  {
    ScanInRange(server, c.settings.skip, Max(c.offset - CHUNK_SIZE, 0), Min(c.offset, CHUNK_SIZE), c.offset, 0);
  }

  /** The offset a tail request starts reading from. */
  function TailStart(file: string, e: nat, skip: int): (q: nat)
    ensures q <= e
  {
    StartInRange(TailConfig(skip, e), Up(file));
    StartOffset(TailConfig(skip, e), Up(file)).value
  }

  function LastN(ls: seq<Line>, n: int): seq<Line>
    requires n >= 0
  {
    ls[Max(|ls| - n, 0)..]
  }

  /** Consumed, on the pieces themselves. */
  function Back(ps: seq<string>, want: int): nat {
    if want <= 0 || ps == [] then 0
    else |ps[0]| + 1 + Back(ps[1..], if ps[0] != "" then want - 1 else want)
  }

  /** Bytes stepped back over from the end of a text to have `want` of its lines. */
  function Stride(s: string, want: int): nat {
    Back(Split(Rev(s), NL), want)
  }

  lemma {:induction false} ConsumedBack(ps: seq<string>, at: int, want: int)
    ensures Consumed(Label(ps, at), want) == Back(ps, want)
  {
    if ps != [] {
      ConsumedBack(ps[1..], at + |ps[0]| + 1, if ps[0] != "" then want - 1 else want);
    }
  }

  /** A window inside the file, read backwards: the piece before its first newline is held back. */
  lemma {:induction false} FetchCut(file: string, o: nat, length: nat, w: string, k: nat, kept: string)
    requires o > 0 && w == Window(file, o, length) && w != [NL]
    requires k < |w| && w[k] == NL && NL !in w[..k] && w[k + 1..] == kept
    ensures Fetch(Up(file), o, length, true) == Ok(Chunk(Label(Split(Rev(kept), NL), o), k))
  {
    SplitRevAt(w, k, NL);
    SplitNone(Rev(w[..k]), NL);
    var pieces := Split(Rev(w), NL);
    assert pieces[..|pieces| - 1] == Split(Rev(kept), NL);
  }

  /** A window at the top is kept whole. */
  lemma FetchTop(file: string, length: nat, w: string)
    requires w == Window(file, 0, length) && w != "" && w != [NL]
    ensures Fetch(Up(file), 0, length, true) == Ok(Chunk(Label(Split(Rev(w), NL), 0), 0))
  {
  }

  /** How a round ends that keeps some pieces and holds back `delta` bytes before them. */
  function Kept(n: int, o: nat, delta: nat, pos: int, found: nat, pieces: nat, stride: nat): Round {
    if found + pieces >= n then Settled(pos - stride, None)
    else if o + delta < CHUNK_SIZE then Settled(0, None)
    else Onward(o + delta - CHUNK_SIZE, found + pieces)
  }

  /** A round of the scan in terms of the text whose pieces it keeps. */
  lemma {:induction false} JudgeKept(kept: string, delta: nat, n: int, o: nat, pos: int, found: nat)
    requires delta < CHUNK_SIZE && n >= 1
    ensures Judge(Ok(Chunk(Label(Split(Rev(kept), NL), o), delta)), -n, o, pos, found)
         == Kept(n, o, delta, pos, found, |Split(kept, NL)|, Stride(kept, n))
  {
    PieceCount(kept);
    ConsumedBack(Split(Rev(kept), NL), o, n);
  }

  /** A round over a window inside the file. */
  lemma {:induction false} RoundCut(file: string, n: int, o: nat, pos: int, found: nat, w: string, k: nat, kept: string)
    requires o > 0 && n >= 1 && w == Window(file, o, CHUNK_SIZE) && w != [NL]
    requires k < |w| && w[k] == NL && NL !in w[..k] && w[k + 1..] == kept
    ensures ScanRound(Up(file), -n, o, CHUNK_SIZE, pos, found)
         == Kept(n, o, k, pos, found, |Split(kept, NL)|, Stride(kept, n))
  {
    FetchCut(file, o, CHUNK_SIZE, w, k, kept);
    JudgeKept(kept, k, n, o, pos, found);
  }

  lemma {:induction false} PieceCount(s: string)
    ensures |Split(Rev(s), NL)| == |Split(s, NL)|
  {
    SplitRev(s, NL);
  }

  /** No more lines than pieces. */
  lemma LinesAtMostPieces(file: string, a: nat, e: nat)
    requires a <= e <= |file|
    ensures |LinesIn(file, a, e)| <= |Split(file[a..e], NL)|
  {
  }

  /** Stepping back over the pieces of file[a..e], last one first, lands on the newline before the line
      wanted, or just before the stretch when it has no more lines than wanted. */
  lemma {:induction false} BackLands(file: string, a: nat, e: nat, s: string, want: nat)
    requires a <= e <= |file| && s == file[a..e] && want >= 1
    ensures Lands(file, a, e, want, Stride(s, want))
    decreases e - a
  {
    if NL !in s {
      BackOverRun(file, a, e, s, want);
    } else {
      var m, t, before := LastCut(file, a, e, s);
      BackOverLast(s, m - a, t, before, want);
      var more := if t != "" then want - 1 else want;
      if more > 0 {
        BackLands(file, a, m, before, more);
      }
      LandsFurther(file, a, m, e, want, Stride(before, more));
    }
  }

  /** A stretch cut at its last newline. */
  lemma LastCut(file: string, a: nat, e: nat, s: string) returns (m: nat, t: string, before: string)
    requires a <= e <= |file| && s == file[a..e] && NL in s
    ensures a <= m < e && file[m] == NL && s[m - a] == NL
    ensures t == file[m + 1..e] == s[m - a + 1..] && NL !in t && (t == "" <==> m + 1 == e)
    ensures before == file[a..m] == s[..m - a]
  {
    m := a + Last(s, NL);
    t, before := file[m + 1..e], file[a..m];
    assert t == s[m - a + 1..];
  }

  /** Stepping back c bytes from `e` reaches the start of the last `want` lines. */
  ghost predicate Lands(file: string, a: nat, e: nat, want: int, c: nat)
    requires a <= e <= |file| && want >= 0
  {
    && c <= e - a + 1
    && (c <= e - a ==> e - c < |file| && file[e - c] == NL)
    && LinesIn(file, Max(e - c, a), e) == LastN(LinesIn(file, a, e), want)
  }

  lemma LandsFurther(file: string, a: nat, m: nat, e: nat, want: int, c: nat)
    requires a <= m < e <= |file| && file[m] == NL && NL !in file[m + 1..e] && want >= 1
    requires var more := if m + 1 < e then want - 1 else want;
      if more > 0 then Lands(file, a, m, more, c) else c == 0
    ensures Lands(file, a, e, want, e - m + c)
  {
    if m + 1 < e && want == 1 {
      LinesInEmpty(file, m);
      LastOneMore(file, a, m, m, e, 0);
    } else {
      LastOneMore(file, a, Max(m - c, a), m, e, if m + 1 < e then want - 1 else want);
    }
  }

  lemma StrideRun(s: string, want: nat)
    requires want >= 1 && NL !in s
    ensures Stride(s, want) == |s| + 1
  {
    assert NL !in Rev(s);
    SplitNone(Rev(s), NL);
    assert [Rev(s)][1..] == [];
    assert Back([Rev(s)], want) == |s| + 1;
  }

  lemma BackOverRun(file: string, a: nat, e: nat, s: string, want: nat)
    requires a <= e <= |file| && s == file[a..e] && want >= 1 && NL !in s
    ensures Lands(file, a, e, want, Stride(s, want)) && Stride(s, want) == |s| + 1
  {
    StrideRun(s, want);
    if a < e {
      LinesInRun(file, a, e);
    } else {
      LinesInEmpty(file, a);
    }
  }

  /** The lines from `q` and one more piece after the newline at `m`. */
  lemma LastOneMore(file: string, a: nat, q: nat, m: nat, e: nat, more: nat)
    requires a <= q <= m < e <= |file| && file[m] == NL && NL !in file[m + 1..e]
    requires LinesIn(file, q, m) == LastN(LinesIn(file, a, m), more)
    ensures LinesIn(file, q, e) == LastN(LinesIn(file, a, e), if m + 1 < e then more + 1 else more)
  {
    LinesSplit(file, a, m, e);
    LinesSplit(file, q, m, e);
    if m + 1 < e {
      LinesInRun(file, m + 1, e);
    } else {
      LinesInEmpty(file, e);
    }
  }

  /** Bytes from the place just before the first of the last `want` lines to `e`, or from just before `a`. */
  function Reach(ls: seq<Line>, a: nat, e: nat, want: int): int {
    if 0 < want <= |ls| then e + 1 - ls[|ls| - want].offset else e + 1 - a
  }

  /** The stride, said without splitting. */
  lemma {:induction false} StrideReach(file: string, a: nat, e: nat, s: string, want: nat)
    requires a <= e <= |file| && s == file[a..e] && want >= 1
    ensures Stride(s, want) == Reach(LinesIn(file, a, e), a, e, want)
    decreases e - a
  {
    if NL !in s {
      ReachOverRun(file, a, e, s, want);
    } else {
      var m, t, before := LastCut(file, a, e, s);
      BackOverLast(s, m - a, t, before, want);
      var more := if t != "" then want - 1 else want;
      if more > 0 {
        StrideReach(file, a, m, before, more);
      }
      ReachOverLast(file, a, m, e, t, want);
    }
  }

  lemma ReachOverLast(file: string, a: nat, m: nat, e: nat, t: string, want: nat)
    requires a <= m < e <= |file| && file[m] == NL && t == file[m + 1..e] && NL !in t && want >= 1
    ensures var more := if t != "" then want - 1 else want;
      Reach(LinesIn(file, a, e), a, e, want) == |t| + 1 + if more > 0 then Reach(LinesIn(file, a, m), a, m, more) else 0
  {
    LinesSplit(file, a, m, e);
    if t != "" {
      LinesInRun(file, m + 1, e);
      ReachFurther(LinesIn(file, a, m), a, m, e, Line(t, m + 1, |t|), want);
    } else {
      LinesInEmpty(file, e);
    }
  }

  lemma ReachFurther(ls: seq<Line>, a: nat, m: nat, e: nat, l: Line, want: nat)
    requires l.offset == m + 1 && want >= 1
    ensures Reach(ls + [l], a, e, want) == e - m + if want > 1 then Reach(ls, a, m, want - 1) else 0
  {
  }

  lemma ReachOverRun(file: string, a: nat, e: nat, s: string, want: nat)
    requires a <= e <= |file| && s == file[a..e] && want >= 1 && NL !in s
    ensures Stride(s, want) == Reach(LinesIn(file, a, e), a, e, want)
  {
    BackOverRun(file, a, e, s, want);
    if a < e {
      LinesInRun(file, a, e);
    } else {
      LinesInEmpty(file, a);
    }
  }

  lemma BackOverLast(s: string, k: nat, t: string, before: string, want: nat)
    requires k < |s| && s[k] == NL && t == s[k + 1..] && NL !in t && before == s[..k] && want >= 1
    ensures Stride(s, want) == |t| + 1 + Stride(before, if t != "" then want - 1 else want)
  {
    SplitRevAt(s, k, NL);
    assert NL !in Rev(t);
    SplitNone(Rev(t), NL);
    var pieces := Split(Rev(s), NL);
    assert pieces == [Rev(t)] + Split(Rev(before), NL);
    assert pieces[1..] == Split(Rev(before), NL);
  }

  /** The offset the reader starts from when a round has ended like this. */
  function Ended(file: string, skip: int, r: Round): int {
    match r
    case Settled(pos, _) => Max(pos, 0)
    case Onward(next, found) => Max(Scan(Up(file), skip, next, CHUNK_SIZE, next, found).0, 0)
  }

  lemma StartJudged(file: string, e: nat, skip: int, o: nat, window: Result<Chunk, ReadError>, r: Round)
    requires skip != 0 && o == Max(e - CHUNK_SIZE, 0)
    requires Fetch(Up(file), o, Min(e, CHUNK_SIZE), true) == window
    requires window.Ok? ==> window.value.delta < CHUNK_SIZE
    requires r == Judge(window, skip, o, e, 0)
    ensures TailStart(file, e, skip) == Ended(file, skip, r)
  {
    StartInRange(TailConfig(skip, e), Up(file));
    assert ScanRound(Up(file), skip, o, Min(e, CHUNK_SIZE), e, 0) == r;
  }

  /** A tail request whose first window keeps these pieces. */
  lemma {:induction false} StartKept(file: string, e: nat, n: int, o: nat, kept: string, delta: nat, r: Round)
    requires n >= 1 && o == Max(e - CHUNK_SIZE, 0) && delta < CHUNK_SIZE
    requires Fetch(Up(file), o, Min(e, CHUNK_SIZE), true) == Ok(Chunk(Label(Split(Rev(kept), NL), o), delta))
    requires r == Kept(n, o, delta, e, 0, |Split(kept, NL)|, Stride(kept, n))
    ensures TailStart(file, e, -n) == Ended(file, -n, r)
  {
    JudgeKept(kept, delta, n, o, e, 0);
    StartJudged(file, e, -n, o, Ok(Chunk(Label(Split(Rev(kept), NL), o), delta)), r);
  }

  /** A cursor no further than one window from the top: always exactly the last N lines before it. */
  lemma TailExactShort(file: string, e: nat, n: int)
    requires e <= |file| && e <= CHUNK_SIZE && n >= 1
    ensures TailedTo(file, 0, e, n, TailStart(file, e, -n))
  {
    var w := file[0..e];
    assert Window(file, 0, e) == w;
    if e == 0 || w == [NL] {
      StartJudged(file, e, -n, 0, Err(EOF), Settled(e, Some(EOF)));
      NothingToTail(file, e, n);
    } else {
      TopStart(file, e, n, w);
      if |Split(w, NL)| >= n {
        StretchTail(file, 0, e, n, w);
      } else {
        LinesAtMostPieces(file, 0, e);
      }
    }
  }

  lemma {:induction false} TopStart(file: string, e: nat, n: int, w: string)
    requires 0 < e <= |file| && e <= CHUNK_SIZE && n >= 1 && w == file[0..e] && w != [NL]
    ensures TailStart(file, e, -n) == if |Split(w, NL)| >= n then Max(e - Stride(w, n), 0) else 0
  {
    assert Window(file, 0, e) == w;
    FetchTop(file, e, w);
    StartKept(file, e, n, 0, w, 0, Kept(n, 0, 0, e, 0, |Split(w, NL)|, Stride(w, n)));
  }

  /** Reading from `q` gives the last n lines of file[a..e]; `q` is the top, a newline, or `e` when there is
      nothing to give. */
  ghost predicate TailedTo(file: string, a: nat, e: nat, n: int, q: nat)
    requires a <= e <= |file| && n >= 0
  {
    && q <= e
    && (q == 0 || q == e || file[q] == NL)
    && LinesIn(file, q, e) == LastN(LinesIn(file, a, e), n)
  }

  lemma NothingToTail(file: string, e: nat, n: int)
    requires e <= |file| && n >= 0 && (e == 0 || file[0..e] == [NL])
    ensures TailedTo(file, 0, e, n, e)
  {
    LinesInEmpty(file, e);
    if e > 0 {
      assert file[0] == file[0..e][0];
      LinesSkipNewline(file, 0, 1);
    }
  }

  lemma LandsTail(file: string, a: nat, e: nat, n: int, c: nat)
    requires a <= e <= |file| && n >= 1 && Lands(file, a, e, n, c)
    requires a > 0 ==> file[a - 1] == NL
    ensures TailedTo(file, a, e, n, Max(e - c, 0))
  {
    if a > 0 && c == e - a + 1 {
      LinesSkipNewline(file, a - 1, e);
    }
  }

  /** The first newline of the last window before `e`; after it the lines of the window are whole. */
  ghost predicate FirstOfWindow(file: string, e: nat, m: nat) {
    CHUNK_SIZE < e <= |file| && e - CHUNK_SIZE <= m < e && file[m] == NL && NL !in file[e - CHUNK_SIZE..m]
  }

  /** Pieces of file[a..e], blank ones counted. */
  function Pieces(file: string, a: nat, e: nat): nat
    requires a <= e <= |file|
  {
    |Split(file[a..e], NL)|
  }

  /** A cursor further down, and a window before it with at least N pieces after its first newline, blank
      ones counted: the last N of the whole lines inside the window. */
  lemma TailFirstWindow(file: string, e: nat, n: int, m: nat)
    requires FirstOfWindow(file, e, m) && 1 <= n <= Pieces(file, m + 1, e)
    ensures TailedTo(file, m + 1, e, n, TailStart(file, e, -n))
  {
    var kept := file[m + 1..e];
    StartSettled(file, e, n, m, kept);
    StretchTail(file, m + 1, e, n, kept);
  }

  lemma StretchTail(file: string, a: nat, e: nat, n: int, kept: string)
    requires a <= e <= |file| && kept == file[a..e] && n >= 1
    requires a > 0 ==> file[a - 1] == NL
    ensures TailedTo(file, a, e, n, Max(e - Stride(kept, n), 0))
  {
    BackLands(file, a, e, kept, n);
    LandsTail(file, a, e, n, Stride(kept, n));
  }

  lemma LongWindow(file: string, e: nat, m: nat, kept: string)
    requires FirstOfWindow(file, e, m) && kept == file[m + 1..e]
    ensures var o := e - CHUNK_SIZE;
      Fetch(Up(file), o, CHUNK_SIZE, true) == Ok(Chunk(Label(Split(Rev(kept), NL), o), m - o))
  {
    var o := e - CHUNK_SIZE;
    var w := file[o..e];
    assert w[..m - o] == file[o..m];
    assert w[m - o + 1..] == kept;
    FetchCut(file, o, CHUNK_SIZE, w, m - o, kept);
  }

  lemma {:induction false} StartSettled(file: string, e: nat, n: int, m: nat, kept: string)
    requires FirstOfWindow(file, e, m) && kept == file[m + 1..e] && 1 <= n <= |Split(kept, NL)|
    ensures TailStart(file, e, -n) == Max(e - Stride(kept, n), 0)
  {
    StartWindow(file, e, n, m, kept, Settled(e - Stride(kept, n), None));
  }

  /** That start is the newline at `m` or one after it. */
  lemma WindowStart(file: string, e: nat, n: int, m: nat)
    requires FirstOfWindow(file, e, m) && 1 <= n <= Pieces(file, m + 1, e)
    ensures m <= TailStart(file, e, -n) < e && file[TailStart(file, e, -n)] == NL
  {
    var kept := file[m + 1..e];
    StartSettled(file, e, n, m, kept);
    BackLands(file, m + 1, e, kept, n);
    StridePositive(kept, n);
  }

  lemma StridePositive(s: string, want: int)
    requires want >= 1
    ensures Stride(s, want) >= 1
  {
  }

  /** How a scan starts on a window with a newline. */
  lemma {:induction false} StartWindow(file: string, e: nat, n: int, m: nat, kept: string, r: Round)
    requires FirstOfWindow(file, e, m) && kept == file[m + 1..e] && n >= 1
    requires r == Kept(n, e - CHUNK_SIZE, m - (e - CHUNK_SIZE), e, 0, |Split(kept, NL)|, Stride(kept, n))
    ensures TailStart(file, e, -n) == Ended(file, -n, r)
  {
    LongWindow(file, e, m, kept);
    StartKept(file, e, n, e - CHUNK_SIZE, kept, m - (e - CHUNK_SIZE), r);
  }

  /** So a scan settled by its first window is exact if and only if that window holds N whole non-blank
      lines after its first newline, or all the lines there are: blank pieces are counted as found. */
  lemma TailExactIff(file: string, e: nat, n: int, m: nat)
    requires FirstOfWindow(file, e, m) && 1 <= n <= Pieces(file, m + 1, e)
    ensures TailedTo(file, 0, e, n, TailStart(file, e, -n))
      <==> |LinesIn(file, m + 1, e)| >= n || LinesIn(file, m + 1, e) == LinesIn(file, 0, e)
  {
    TailFirstWindow(file, e, n, m);
    LinesSplit(file, 0, m, e);
    LastOfBoth(LinesIn(file, 0, m), LinesIn(file, m + 1, e), n);
  }

  lemma LastOfBoth(a: seq<Line>, b: seq<Line>, n: int)
    requires n >= 0
    ensures LastN(b, n) == LastN(a + b, n) <==> |b| >= n || b == a + b
  {
    if |b| >= n {
      assert LastN(b, n) == LastN(a + b, n);
    }
  }

  /** The whole stretch is its last n lines if and only if it has no more. */
  lemma WholeTail(file: string, e: nat, n: int)
    requires e <= |file| && n >= 0
    ensures TailedTo(file, 0, e, n, 0) <==> |LinesIn(file, 0, e)| <= n
  {
  }

  /** A scan that runs into the top of the file, its first window not holding enough pieces and the next one starting
      before the file does, hands out everything before the cursor, however many lines that is. */
  lemma TailTopIff(file: string, e: nat, n: int, m: nat)
    requires FirstOfWindow(file, e, m) && m < CHUNK_SIZE && n > Pieces(file, m + 1, e)
    ensures TailStart(file, e, -n) == 0
    ensures TailedTo(file, 0, e, n, 0) <==> |LinesIn(file, 0, e)| <= n
  {
    StartWindow(file, e, n, m, file[m + 1..e], Settled(0, None));
    WholeTail(file, e, n);
  }

  /** A window without a newline is kept whole. */
  lemma {:induction false} FetchUncut(file: string, o: nat, length: nat, w: string)
    requires w == Window(file, o, length) && w != "" && NL !in w
    ensures Fetch(Up(file), o, length, true) == Ok(Chunk(Label(Split(Rev(w), NL), o), 0))
    ensures |Split(w, NL)| == 1
  {
    assert NL !in Rev(w);
    SplitNone(Rev(w), NL);
    SplitNone(w, NL);
    assert NL in [NL];
  }

  /** When the line before the cursor fills the first window: asked for one line, the scan steps back one byte further
      than the window, which is exact if and only if that line has at most CHUNK_SIZE + 1 bytes; asked
      for more with the top in reach, it hands out everything. */
  lemma TailLongLineIff(file: string, e: nat, n: int)
    requires CHUNK_SIZE < e <= |file| && NL !in file[e - CHUNK_SIZE..e] && n >= 1
    ensures n == 1 ==> TailStart(file, e, -n) == e - CHUNK_SIZE - 1
    ensures n == 1 ==>
      (LinesIn(file, TailStart(file, e, -n), e) == LastN(LinesIn(file, 0, e), 1)
       <==> e == CHUNK_SIZE + 1 || file[e - CHUNK_SIZE - 1] == NL || file[e - CHUNK_SIZE - 2] == NL)
    ensures n > 1 && e < 2 * CHUNK_SIZE ==>
      TailStart(file, e, -n) == 0 && (TailedTo(file, 0, e, n, 0) <==> |LinesIn(file, 0, e)| <= n)
  {
    var w := file[e - CHUNK_SIZE..e];
    LongLineStart(file, e, n, w);
    if n == 1 {
      LastOneIff(file, e - CHUNK_SIZE - 1, e, w);
    } else {
      WholeTail(file, e, n);
    }
  }

  /** The first round keeps the whole window as one piece. */
  lemma LongLineRound(file: string, e: nat, n: int, w: string, r: Round)
    requires CHUNK_SIZE < e <= |file| && w == file[e - CHUNK_SIZE..e] && NL !in w && n >= 1
    requires r == Kept(n, e - CHUNK_SIZE, 0, e, 0, 1, CHUNK_SIZE + 1)
    ensures TailStart(file, e, -n) == Ended(file, -n, r)
  {
    FetchUncut(file, e - CHUNK_SIZE, CHUNK_SIZE, w);
    StrideRun(w, n);
    StartKept(file, e, n, e - CHUNK_SIZE, w, 0, r);
  }

  lemma LongLineStart(file: string, e: nat, n: int, w: string)
    requires CHUNK_SIZE < e <= |file| && w == file[e - CHUNK_SIZE..e] && NL !in w && n >= 1
    ensures n == 1 ==> TailStart(file, e, -n) == e - CHUNK_SIZE - 1
    ensures n > 1 && e < 2 * CHUNK_SIZE ==> TailStart(file, e, -n) == 0
  {
    LongLineRound(file, e, n, w, Kept(n, e - CHUNK_SIZE, 0, e, 0, 1, CHUNK_SIZE + 1));
  }

  /** In any case the scan ends before that window. */
  lemma LongLineBefore(file: string, e: nat, n: int)
    requires CHUNK_SIZE < e <= |file| && NL !in file[e - CHUNK_SIZE..e] && n >= 1
    ensures TailStart(file, e, -n) <= e - CHUNK_SIZE
  {
    var r := Kept(n, e - CHUNK_SIZE, 0, e, 0, 1, CHUNK_SIZE + 1);
    LongLineRound(file, e, n, file[e - CHUNK_SIZE..e], r);
    if r.Onward? {
      ScanInRange(Up(file), -n, r.next, CHUNK_SIZE, r.next, r.found);
    }
  }

  /** What starts at `q`, one byte before a stretch without a newline, is the last line if and only if a line starts
      at `q` or after it. */
  lemma LastOneIff(file: string, q: nat, e: nat, w: string)
    requires q + 1 < e <= |file| && w == file[q + 1..e] && NL !in w
    ensures LinesIn(file, q, e) == LastN(LinesIn(file, 0, e), 1) <==> q == 0 || file[q] == NL || file[q - 1] == NL
  {
    var all := LinesIn(file, 0, e);
    if file[q] == NL {
      LinesSplit(file, 0, q, e);
      LinesSkipNewline(file, q, e);
      LinesInRun(file, q + 1, e);
      LastAdded(LinesIn(file, 0, q), LinesIn(file, q, e));
    } else {
      assert file[q..e] == [file[q]] + w;
      LinesInRun(file, q, e);
      if q > 0 && file[q - 1] == NL {
        LinesSplit(file, 0, q - 1, e);
        LastAdded(LinesIn(file, 0, q - 1), LinesIn(file, q, e));
      } else if q > 0 {
        NoLineAt(file, q, e);
      }
    }
  }

  lemma LastAdded(a: seq<Line>, b: seq<Line>)
    requires |b| == 1
    ensures LastN(a + b, 1) == b
  {
  }

  lemma NoLineAt(file: string, q: nat, e: nat)
    requires 0 < q < e <= |file| && file[q - 1] != NL
    ensures LinesIn(file, q, e) != [] && LinesIn(file, q, e)[0].offset == q ==>
      LinesIn(file, q, e) != LastN(LinesIn(file, 0, e), 1)
  {
    var last := LastN(LinesIn(file, 0, e), 1);
    LinesAreLines(file, 0, e);
    if last != [] {
      assert IsLine(file, 0, e, last[0]);
    }
  }

  /** A line of CHUNK_SIZE - 2 bytes. */
  function LongLine(): (row: string)
    ensures |row| == CHUNK_SIZE - 2 && NL !in row && row[|row| - 1] == row[|row| - 2] == 'x'
  {
    seq(CHUNK_SIZE - 2, i => 'x')
  }

  function FourLongLines(): string {
    var row := LongLine() + [NL];
    row + row + row + row
  }

  /** A scan over more than one window is not exact: asked for the last three of four long lines, it counts
      the blank piece after the last one, steps back from the start of its second window, and
      leaves the reader on the last byte of the first line. */
  lemma TailManyWindowsInexact()
    ensures var file := FourLongLines();
      && TailStart(file, |file|, -3) == CHUNK_SIZE - 3
      && LinesFrom(file, CHUNK_SIZE - 3) != []
      && LinesFrom(file, CHUNK_SIZE - 3)[0] == Line("x", CHUNK_SIZE - 3, 1)
      && !IsLine(file, 0, |file|, Line("x", CHUNK_SIZE - 3, 1))
  {
    var file := FourLongLines();
    var c := CHUNK_SIZE - 1;
    LongWindows(file);
    LongStart(file, 4 * c);
    LongTear(file);
  }

  lemma LongStart(file: string, e: nat)
    requires e == |file| == 4 * (CHUNK_SIZE - 1)
    requires Window(file, 3 * CHUNK_SIZE - 4, CHUNK_SIZE) == [NL] + (LongLine() + [NL])
    requires Window(file, 2 * CHUNK_SIZE - 4, CHUNK_SIZE) == "x" + [NL] + LongLine()
    ensures TailStart(file, e, -3) == CHUNK_SIZE - 3
  {
    LongScan(file);
    StartInRange(TailConfig(-3, e), Up(file));
  }

  lemma LongTear(file: string)
    requires |file| == 4 * (CHUNK_SIZE - 1)
    requires file[CHUNK_SIZE - 4] == file[CHUNK_SIZE - 3] == 'x' && file[CHUNK_SIZE - 2] == NL
    ensures LinesFrom(file, CHUNK_SIZE - 3) != []
    ensures LinesFrom(file, CHUNK_SIZE - 3)[0] == Line("x", CHUNK_SIZE - 3, 1)
    ensures !IsLine(file, 0, |file|, Line("x", CHUNK_SIZE - 3, 1))
  {
    var at := CHUNK_SIZE - 3;
    assert file[at..at + 1] == "x";
    LinesSplit(file, at, at + 1, |file|);
    LinesInRun(file, at, at + 1);
    var l, rest := Line("x", at, 1), LinesIn(file, at + 2, |file|);
    assert LinesFrom(file, at) == [l] + rest;
    assert l.offset != 0 && file[l.offset - 1] != NL;
  }

  lemma LongScan(file: string)
    requires var c := CHUNK_SIZE - 1;
      && Window(file, 3 * c - 1, CHUNK_SIZE) == [NL] + (LongLine() + [NL])
      && Window(file, 2 * c - 2, CHUNK_SIZE) == "x" + [NL] + LongLine()
    ensures var c := CHUNK_SIZE - 1;
      Scan(Up(file), -3, 3 * c - 1, CHUNK_SIZE, 4 * c, 0) == (c - 2, None)
  {
    var c, line := CHUNK_SIZE - 1, LongLine();
    FirstRound(file, line);
    SecondRound(file, line);
    assert Scan(Up(file), -3, 2 * c - 2, CHUNK_SIZE, 2 * c - 2, 2) == (c - 2, None);
  }

  /** Two pieces, one of them the blank after the last newline: not enough for three lines. */
  lemma FirstRound(file: string, line: string)
    requires NL !in line && |line| == CHUNK_SIZE - 2
    requires Window(file, 3 * CHUNK_SIZE - 4, CHUNK_SIZE) == [NL] + (line + [NL])
    ensures ScanRound(Up(file), -3, 3 * CHUNK_SIZE - 4, CHUNK_SIZE, 4 * CHUNK_SIZE - 4, 0)
            == Onward(2 * CHUNK_SIZE - 4, 2)
  {
    var kept := line + [NL];
    var w := [NL] + kept;
    assert w[1..] == kept;
    SplitConcat(line, "", NL);
    SplitNone(line, NL);
    assert line + [NL] + "" == kept;
    RoundCut(file, 3, 3 * CHUNK_SIZE - 4, 4 * CHUNK_SIZE - 4, 0, w, 0, kept);
  }

  /** One more piece: three found, and one step back from the start of this window. */
  lemma SecondRound(file: string, line: string)
    requires NL !in line && |line| == CHUNK_SIZE - 2
    requires Window(file, 2 * CHUNK_SIZE - 4, CHUNK_SIZE) == "x" + [NL] + line
    ensures ScanRound(Up(file), -3, 2 * CHUNK_SIZE - 4, CHUNK_SIZE, 2 * CHUNK_SIZE - 4, 2)
            == Settled(CHUNK_SIZE - 3, None)
  {
    var w := "x" + [NL] + line;
    assert w[2..] == line;
    SplitNone(line, NL);
    RoundCut(file, 3, 2 * CHUNK_SIZE - 4, 2 * CHUNK_SIZE - 4, 2, w, 1, line);
    StrideRun(line, 3);
  }

  lemma LongWindows(file: string)
    requires file == FourLongLines()
    ensures var c := CHUNK_SIZE - 1;
      && |file| == 4 * c
      && Window(file, 3 * c - 1, CHUNK_SIZE) == [NL] + (LongLine() + [NL])
      && Window(file, 2 * c - 2, CHUNK_SIZE) == "x" + [NL] + LongLine()
      && file[c - 3] == file[c - 2] == 'x' && file[c - 1] == NL
  {
    var c, line := CHUNK_SIZE - 1, LongLine();
    var row := line + [NL];
    assert file == row + row + row + row;
    LongSlices(line, row, file);
  }

  lemma LongSlices(line: string, row: string, file: string)
    requires |line| == CHUNK_SIZE - 2 && row == line + [NL] && file == row + row + row + row
    requires line[|line| - 1] == line[|line| - 2] == 'x'
    ensures var c := CHUNK_SIZE - 1;
      && file[3 * c - 1..4 * c] == [NL] + row
      && file[2 * c - 2..3 * c - 1] == "x" + [NL] + line
      && file[c - 3] == file[c - 2] == 'x' && file[c - 1] == NL
  {
    var c := CHUNK_SIZE - 1;
    assert file[3 * c - 1] == row[c - 1] && file[3 * c..4 * c] == row;
    assert file[2 * c - 2] == row[c - 2] && file[2 * c - 1] == row[c - 1] && file[2 * c..3 * c - 1] == line;
  }
}
