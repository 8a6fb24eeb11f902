/** What one request adds to the buffer and where it leaves the offset, for every file and offset. */
module Refills {
  import opened Prelude
  import opened Text
  import opened Lines
  import opened FilesReader

  /** Where the buffered lines of a request end and where the offset goes. */
  datatype Landing = Landing(upTo: nat, offset: nat)

  /** The file position of the last newline of the window at `o`. */
  function LastNewline(file: string, o: nat): (e: nat)
    requires NL in Window(file, o, CHUNK_SIZE)
    ensures o <= e < |file| && e < o + CHUNK_SIZE && file[e] == NL
    ensures forall i :: e < i < |file| && i < o + CHUNK_SIZE ==> file[i] != NL
  {
    var w := Window(file, o, CHUNK_SIZE);
    var k := Last(w, NL);
    assert forall i :: o + k < i < o + |w| ==> file[i] == w[k + 1..][i - o - k - 1];
    o + k
  }

  predicate AtEnd(file: string, o: nat) {
    Window(file, o, CHUNK_SIZE) == "" || Window(file, o, CHUNK_SIZE) == [NL]
  }

  /** The three ways a request can land: a window inside the file with a newline parks on its last
      newline; one without is taken whole as a single line; the window at the top is taken whole. The
      last two step back onto the final byte of a window of CHUNK_SIZE bytes. */
  function Land(file: string, o: nat): Landing
    requires !AtEnd(file, o)
  {
    var w := Window(file, o, CHUNK_SIZE);
    if o > 0 && NL in w then Landing(LastNewline(file, o), LastNewline(file, o))
    else Landing(o + |w|, o + Min(|w|, CHUNK_SIZE - 1))
  }

  /** The first request parks on a newline. A caller can see this from the file before it opens the reader. */
  predicate Parks(file: string, o: nat) {
    if o == 0 then |file| >= CHUNK_SIZE && file[CHUNK_SIZE - 1] == NL
    else NL in Window(file, o, CHUNK_SIZE)
  }

  /** A window is 64 KiB, so that the first one parks only if its last byte is a newline. */
  lemma ParksAtTop(file: string)
    ensures Parks(file, 0) <==> |file| >= 65536 && file[65535] == '\n'
  {
  }

  lemma AtEndIff(file: string, o: nat)
    ensures AtEnd(file, o) <==> o >= |file| || (o == |file| - 1 && file[o] == NL)
  {
    if o < |file| {
      var w := Window(file, o, CHUNK_SIZE);
      assert w[0] == file[o];
      assert |w| == 1 ==> w == [file[o]];
    }
  }

  lemma LandInside(file: string, o: nat)
    requires !AtEnd(file, o)
    ensures o < |file| && o <= Land(file, o).upTo <= |file|
    ensures o <= Land(file, o).offset <= Land(file, o).upTo
  {
  }

  lemma {:induction false} FetchParks(file: string, o: nat)
    requires o > 0 && NL in Window(file, o, CHUNK_SIZE) && !AtEnd(file, o)
    ensures var e := LastNewline(file, o);
      Fetch(Up(file), o, CHUNK_SIZE, false)
      == Ok(Chunk(Label(Split(file[o..e], NL), o), |Window(file, o, CHUNK_SIZE)| - (e - o) - 1))
  {
    var w := Window(file, o, CHUNK_SIZE);
    var k := Last(w, NL);
    assert w[..k] == file[o..o + k];
    FetchHolds(file, o, w, k, file[o..o + k]);
  }

  /** A window inside the file: the piece after its last newline is held back. */
  lemma {:induction false} FetchHolds(file: string, o: nat, w: string, k: nat, kept: string)
    requires o > 0 && w == Window(file, o, CHUNK_SIZE) && w != [NL]
    requires k < |w| && w[k] == NL && NL !in w[k + 1..] && w[..k] == kept
    ensures Fetch(Up(file), o, CHUNK_SIZE, false) == Ok(Chunk(Label(Split(kept, NL), o), |w| - k - 1))
  {
    SplitAt(w, k, NL);
    SplitNone(w[k + 1..], NL);
    var pieces := Split(w, NL);
    assert pieces[..|pieces| - 1] == Split(kept, NL);
  }

  lemma {:induction false} FetchWhole(file: string, o: nat)
    requires (o == 0 || NL !in Window(file, o, CHUNK_SIZE)) && !AtEnd(file, o)
    ensures var upTo := o + |Window(file, o, CHUNK_SIZE)|;
      && upTo <= |file|
      && Fetch(Up(file), o, CHUNK_SIZE, false) == Ok(Chunk(Label(Split(file[o..upTo], NL), o), 0))
  {
    var w := Window(file, o, CHUNK_SIZE);
    assert w == file[o..o + |w|];
    if NL !in w {
      SplitNone(w, NL);
    }
  }

  lemma StockChunk(p: Progress, file: string, hi: nat, delta: nat)
    requires p.buffer == [] && p.offset <= hi <= |file| && delta < CHUNK_SIZE
    requires Fetch(Up(file), p.offset, CHUNK_SIZE, false)
          == Ok(Chunk(Label(Split(file[p.offset..hi], NL), p.offset), delta))
    ensures Stock(p, Up(file)) == Ok(p.(
        buffer := Rev(LinesIn(file, p.offset, hi)),
        offset := if hi - p.offset + 1 < CHUNK_SIZE then hi else p.offset + CHUNK_SIZE - delta - 1))
  {
    var s := file[p.offset..hi];
    var ls := Label(Split(s, NL), p.offset);
    assert LinesLen(ls) == hi - p.offset + 1 by {
      PiecesLen(s, p.offset);
    }
    assert LinesIn(file, p.offset, hi) == NonBlank(ls);
    StockFetched(p, file, Chunk(ls, delta));
  }

  lemma StockFetched(p: Progress, file: string, chunk: Chunk)
    requires p.buffer == [] && Fetch(Up(file), p.offset, CHUNK_SIZE, false) == Ok(chunk)
    ensures |chunk.lines| >= 1 && chunk.delta < CHUNK_SIZE
    ensures Stock(p, Up(file)) == Ok(p.(
        buffer := Rev(NonBlank(chunk.lines)),
        offset := if LinesLen(chunk.lines) < CHUNK_SIZE then p.offset + LinesLen(chunk.lines) - 1
                  else p.offset + CHUNK_SIZE - chunk.delta - 1))
  {
    assert Rev(NonBlank(chunk.lines)) + [] == Rev(NonBlank(chunk.lines));
  }

  lemma {:induction false} PiecesLen(s: string, at: nat)
    ensures LinesLen(Label(Split(s, NL), at)) == |s| + 1
  {
    ExtentSplit(s);
    LinesLenLabel(Split(s, NL), at);
  }

  /** Stock in terms of file positions: the split, the held-back piece and the offset arithmetic are gone. */
  lemma StockLands(p: Progress, file: string)
    requires p.buffer == []
    ensures AtEnd(file, p.offset) ==> Stock(p, Up(file)) == Err(EOF)
    ensures !AtEnd(file, p.offset) ==>
      var l := Land(file, p.offset);
      && p.offset <= l.upTo <= |file|
      && Stock(p, Up(file)) == Ok(p.(buffer := Rev(LinesIn(file, p.offset, l.upTo)), offset := l.offset))
  {
    if !AtEnd(file, p.offset) {
      if p.offset > 0 && NL in Window(file, p.offset, CHUNK_SIZE) {
        StockParks(p, file);
      } else {
        StockWhole(p, file);
      }
    }
  }

  lemma StockParks(p: Progress, file: string)
    requires p.buffer == [] && !AtEnd(file, p.offset) && p.offset > 0 && NL in Window(file, p.offset, CHUNK_SIZE)
    ensures var e := LastNewline(file, p.offset);
      Stock(p, Up(file)) == Ok(p.(buffer := Rev(LinesIn(file, p.offset, e)), offset := e))
  {
    var o, e := p.offset, LastNewline(file, p.offset);
    FetchParks(file, o);
    StockChunk(p, file, e, |Window(file, o, CHUNK_SIZE)| - (e - o) - 1);
  }

  lemma StockWhole(p: Progress, file: string)
    requires p.buffer == [] && !AtEnd(file, p.offset) && (p.offset == 0 || NL !in Window(file, p.offset, CHUNK_SIZE))
    ensures var upTo := p.offset + |Window(file, p.offset, CHUNK_SIZE)|;
      && upTo <= |file|
      && Stock(p, Up(file)) == Ok(p.(buffer := Rev(LinesIn(file, p.offset, upTo)),
                                     offset := p.offset + Min(upTo - p.offset, CHUNK_SIZE - 1)))
  {
    var upTo := p.offset + |Window(file, p.offset, CHUNK_SIZE)|;
    FetchWhole(file, p.offset);
    StockChunk(p, file, upTo, 0);
  }

  /** A first window of CHUNK_SIZE bytes that does not park is taken whole, and does not end on a newline. */
  lemma FullWindow(file: string, o: nat)
    requires o + CHUNK_SIZE <= |file| && !Parks(file, o)
    ensures !AtEnd(file, o) && Land(file, o) == Landing(o + CHUNK_SIZE, o + CHUNK_SIZE - 1)
    ensures file[o + CHUNK_SIZE - 1] != NL
  {
    var w := Window(file, o, CHUNK_SIZE);
    assert w[|w| - 1] == file[o + CHUNK_SIZE - 1];
    AtEndIff(file, o);
  }

  /** Forwards or backwards, the kept pieces with a newline each account for every byte of a window: all but the
      piece held back, or one byte more than the window when none is. */
  lemma FetchConserves(file: string, o: nat, length: nat, backwards: bool)
    requires Fetch(Up(file), o, length, backwards).Ok?
    ensures var data, chunk := Window(file, o, length), Fetch(Up(file), o, length, backwards).value;
      if o > 0 && NL in data then LinesLen(chunk.lines) + chunk.delta == |data|
      else LinesLen(chunk.lines) == |data| + 1 && chunk.delta == 0
  {
    var data := Window(file, o, length);
    var text := if backwards then Rev(data) else data;
    var pieces := Split(text, NL);
    var last := |pieces| - 1;
    assert NL in data <==> NL in text by {
      RevRev(data);
      RevHas(data, NL);
      RevHas(Rev(data), NL);
    }
    if NL in text {
      SplitAtLast(text, NL);
    } else {
      SplitNone(text, NL);
    }
    ExtentSplit(text);
    assert pieces == pieces[..last] + [pieces[last]];
    ExtentConcat(pieces[..last], [pieces[last]]);
    LinesLenLabel(pieces, o);
    LinesLenLabel(pieces[..last], o);
  }

  lemma RevHas(s: string, c: char)
    ensures c in s ==> c in Rev(s)
  {
    if c in s {
      var i :| 0 <= i < |s| && s[i] == c;
      assert Rev(s)[|s| - 1 - i] == c;
    }
  }

  /** A request that finds data leaves the offset where it was if and only if its window is a newline
      followed by a run without one. Then nothing at all changes, and the next pass finds the same. */
  lemma StuckIff(cfg: Settings, p: Progress, file: string)
    requires p.buffer == [] && Stock(p, Up(file)).Ok? && !LimitReached(cfg, p)
    ensures |Window(file, p.offset, CHUNK_SIZE)| > 0
    ensures Stock(p, Up(file)).value.offset == p.offset
      <==> p.offset > 0 && Window(file, p.offset, CHUNK_SIZE)[0] == NL
           && NL !in Window(file, p.offset, CHUNK_SIZE)[1..]
    ensures Stock(p, Up(file)).value.offset == p.offset ==> Turn(cfg, p, Up(file)) == (p, Stopped(NoData))
  {
    StockLands(p, file);
    if Stock(p, Up(file)).value.offset == p.offset {
      LinesInEmpty(file, p.offset);
    }
  }
}
