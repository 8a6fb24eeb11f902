/** A whole non-stream run over a file that does not change: the loop of filesAPIHandler
    (api/v2/handlers.go), which copies until EOF and starts again on ErrNoData. */
module WholeRun {
  import opened Prelude
  import opened Text
  import opened Lines
  import opened FilesReader
  import opened Refills
  import opened Runs

  /** What the client has when the run ends, or when it hangs up after `rounds` reads. */
  datatype Served = Served(p: Progress, delivered: seq<Line>, finished: bool)

  function Serve(cfg: Settings, p: Progress, file: string, rounds: nat): Served
    decreases rounds
  {
    if rounds == 0 then Served(p, [], false)
    else
      match ReadLine(cfg, p, Up(file))
      case (q, Delivered(l)) =>
        var r := Serve(cfg, q, file, rounds - 1);
        Served(r.p, [l] + r.delivered, r.finished)
      case (q, Stopped(e)) => if e == NoData then Serve(cfg, q, file, rounds - 1) else Served(q, [], true)
  }

  /** A run that delivered some lines before. */
  function After(done: seq<Line>, r: Served): Served {
    Served(r.p, done + r.delivered, r.finished)
  }

  lemma AfterAfter(a: seq<Line>, b: seq<Line>, r: Served)
    ensures After(a, After(b, r)) == After(a + b, r)
  {
  }

  lemma ServeStep(cfg: Settings, p: Progress, file: string, rounds: nat, q: Progress, outcome: Outcome)
    requires rounds > 0 && ReadLine(cfg, p, Up(file)) == (q, outcome)
    ensures var rest := Serve(cfg, q, file, rounds - 1);
      Serve(cfg, p, file, rounds)
      == match outcome
         case Delivered(l) => After([l], rest)
         case Stopped(e) => if e == NoData then After([], rest) else Served(q, [], true)
  {
    assert [] + Serve(cfg, q, file, rounds - 1).delivered == Serve(cfg, q, file, rounds - 1).delivered;
  }

  /** The simple specification: drop `skip` lines, then take `limit`; a limit that is not positive is none. */
  function Select(cfg: Settings, all: seq<Line>): seq<Line> {
    var rest := all[Min(Max(cfg.skip, 0), |all|)..];
    if Unlimited(cfg) then rest else rest[..Min(cfg.readLimit, |rest|)]
  }

  /** The first window holds the rest of the file and is taken whole. */
  predicate Uncut(file: string, o: nat) {
    o < |file| < o + CHUNK_SIZE && (o == 0 || NL !in file[o..])
  }

  /** If there is a newline at `i`, it is followed by another within CHUNK_SIZE - 1 bytes. */
  predicate Bridged(file: string, i: nat)
    requires i < |file|
  {
    file[i] == NL ==> NL in Window(file, i + 1, CHUNK_SIZE - 1)
  }

  /** From `o` on, every newline but one ending the file is followed by another within CHUNK_SIZE - 1 bytes. */
  ghost predicate Dense(file: string, o: nat) {
    forall i :: o <= i < |file| - 1 ==> Bridged(file, i)
  }

  /** Files and starts for which the chunked reader can deliver the right lines. */
  ghost predicate Readable(file: string, o: nat) {
    o >= |file| || Uncut(file, o) || (Parks(file, o) && Dense(file, o))
  }

  /** Where a reader can stand between requests. */
  ghost predicate Held(file: string, o: nat, at: nat) {
    || at == o
    || (o <= at && at == |file|)
    || (o <= at < |file| && 0 < at && file[at] == NL && Parks(file, o))
  }

  /** The lines before `at`, as far as there is a file before it. */
  function Seen(file: string, o: nat, at: nat): seq<Line> {
    if o <= at <= |file| then LinesIn(file, o, at) else []
  }

  ghost predicate Covered(o: nat, w: World) {
    Held(w.file, o, w.p.offset) && Taken(w) == Seen(w.file, o, w.p.offset)
  }

  /** Bytes left count twice, buffered lines once: every read that is not the last brings this down. */
  function Left(file: string, p: Progress): nat {
    2 * Max(|file| - p.offset, 0) + |p.buffer|
  }

  lemma DenseMoves(file: string, at: nat)
    requires 0 < at < |file| && file[at] == NL && !AtEnd(file, at)
    requires at < |file| - 1 ==> Bridged(file, at)
    ensures NL in Window(file, at, CHUNK_SIZE) && at < LastNewline(file, at)
  {
    AtEndIff(file, at);
    var w, v := Window(file, at, CHUNK_SIZE), Window(file, at + 1, CHUNK_SIZE - 1);
    assert w[0] == NL;
    var i :| 0 <= i < |v| && v[i] == NL;
    assert file[at + 1 + i] == v[i];
  }

  lemma FirstLanding(file: string, o: nat)
    requires Readable(file, o) && !AtEnd(file, o)
    ensures var l := Land(file, o);
      && o <= l.upTo <= |file| && o < l.offset && Held(file, o, l.offset)
      && LinesIn(file, o, l.upTo) == Seen(file, o, l.offset)
  {
    AtEndIff(file, o);
    if Uncut(file, o) {
      if o > 0 {
        assert Window(file, o, CHUNK_SIZE) == file[o..];
      }
    } else if o == 0 {
      LinesStopNewline(file, 0, CHUNK_SIZE - 1);
    } else if file[o] == NL {
      DenseMoves(file, o);
    } else {
      assert LastNewline(file, o) != o;
    }
  }

  lemma WholeWindow(file: string, o: nat)
    requires o < |file|
    ensures |file| < o + CHUNK_SIZE ==> Window(file, o, CHUNK_SIZE) == file[o..]
  {
  }

  lemma ParkedMeansCut(file: string, o: nat, at: nat)
    requires o <= at < |file| && 0 < at && file[at] == NL && Parks(file, o)
    ensures !Uncut(file, o)
  {
    assert file[o..][at - o] == NL;
  }

  lemma NextLanding(file: string, o: nat, at: nat)
    requires Readable(file, o) && !AtEnd(file, at)
    requires o <= at < |file| && 0 < at && file[at] == NL && Parks(file, o)
    ensures var l := Land(file, at);
      && at < l.offset == l.upTo < |file| && Held(file, o, l.offset)
      && LinesIn(file, o, at) + LinesIn(file, at, l.upTo) == LinesIn(file, o, l.offset)
  {
    ParkedMeansCut(file, o, at);
    DenseMoves(file, at);
    var e := LastNewline(file, at);
    LinesSplit(file, o, at, e);
    LinesSkipNewline(file, at, e);
  }

  /** Every landing of a readable run moves forward, over no more lines than bytes, to a place it can
      stand on, and leaves no gap. */
  lemma Landings(file: string, o: nat, at: nat)
    requires Readable(file, o) && Held(file, o, at) && !AtEnd(file, at)
    ensures var l := Land(file, at);
      && at <= l.upTo <= |file| && at < l.offset <= |file| && Held(file, o, l.offset)
      && Seen(file, o, at) + LinesIn(file, at, l.upTo) == Seen(file, o, l.offset)
      && |LinesIn(file, at, l.upTo)| <= l.offset - at
  {
    AtEndIff(file, at);
    LandInside(file, at);
    if at == o {
      FirstLanding(file, o);
      LinesInEmpty(file, o);
      LinesInCount(file, o, Land(file, o).offset);
    } else {
      NextLanding(file, o, at);
      LinesInCount(file, at, Land(file, at).upTo);
    }
  }

  /** One pass keeps the account and makes progress, or the run is over. */
  lemma PassCovers(cfg: Settings, o: nat, w: World)
    requires Readable(w.file, o) && Covered(o, w) && !LimitReached(cfg, w.p)
    ensures var v, outcome := Pass(cfg, w, Up(w.file)), Turn(cfg, w.p, Up(w.file)).1;
      && v.file == w.file && Covered(o, v)
      && (outcome.Stopped? && outcome.error != NoData ==>
            outcome.error == EOF && v == w && w.p.buffer == [] && AtEnd(w.file, w.p.offset))
      && (!outcome.Stopped? || outcome.error == NoData ==> Left(w.file, v.p) < Left(w.file, w.p))
  {
    if w.p.buffer != [] {
      PassPops(cfg, w, Up(w.file));
    } else if AtEnd(w.file, w.p.offset) {
      PassFills(cfg, w);
    } else {
      FillCovers(cfg, o, w);
    }
  }

  lemma FillCovers(cfg: Settings, o: nat, w: World)
    requires Readable(w.file, o) && Covered(o, w) && !LimitReached(cfg, w.p)
    requires w.p.buffer == [] && !AtEnd(w.file, w.p.offset)
    ensures var v, outcome := Pass(cfg, w, Up(w.file)), Turn(cfg, w.p, Up(w.file)).1;
      && v.file == w.file && Covered(o, v) && Left(w.file, v.p) < Left(w.file, w.p)
      && (outcome.Stopped? ==> outcome.error == NoData)
  {
    var at := w.p.offset;
    PassFills(cfg, w);
    Landings(w.file, o, at);
    assert Taken(w) == w.popped;
    FillMoves(w, Pass(cfg, w, Up(w.file)), LinesIn(w.file, at, Land(w.file, at).upTo));
    FillOutcome(cfg, w.p, w.file);
  }

  lemma FillMoves(w: World, v: World, ls: seq<Line>)
    requires v.file == w.file && w.p.buffer == [] && w.p.offset < v.p.offset <= |w.file|
    requires Taken(v) == w.popped + ls && |ls| <= v.p.offset - w.p.offset && |v.popped| >= |w.popped|
    ensures Left(w.file, v.p) < Left(w.file, w.p)
  {
    assert |v.popped| + |v.p.buffer| == |Taken(v)|;
  }

  lemma FillOutcome(cfg: Settings, p: Progress, file: string)
    requires p.buffer == [] && !AtEnd(file, p.offset)
    requires !LimitReached(cfg, p)
    ensures Turn(cfg, p, Up(file)).1.Stopped? ==> Turn(cfg, p, Up(file)).1.error == NoData
  {
    StockLands(p, file);
  }

  lemma CoveredPrefix(o: nat, w: World)
    requires Covered(o, w)
    ensures Taken(w) <= LinesFrom(w.file, o)
    ensures AtEnd(w.file, w.p.offset) ==> Taken(w) == LinesFrom(w.file, o)
  {
    var at := w.p.offset;
    AtEndIff(w.file, at);
    if o <= at < |w.file| {
      if w.file[at] == NL {
        LinesSplit(w.file, o, at, |w.file|);
        if at + 1 == |w.file| {
          LinesInEmpty(w.file, at + 1);
        }
      } else {
        LinesInEmpty(w.file, o);
      }
    }
  }

  /** A run over a readable file that has kept its accounts so far. */
  ghost predicate Running(cfg: Settings, file: string, o: nat, w: World) {
    w.file == file && Readable(file, o) && Covered(o, w) && Tallied(cfg, w)
  }

  /** What a pass or a read does in such a run: it adds what it delivers, and makes progress or ends at the limit or at
      EOF. */
  ghost predicate Advances(cfg: Settings, w: World, v: World, outcome: Outcome) {
    && v.delivered == w.delivered + (if outcome.Delivered? then [outcome.line] else [])
    && (outcome.Stopped? && outcome.error != NoData ==>
          LimitReached(cfg, v.p) || (v.p.buffer == [] && AtEnd(w.file, v.p.offset)))
    && (!outcome.Stopped? || outcome.error == NoData ==> Left(w.file, v.p) < Left(w.file, w.p))
  }

  lemma PassAdvances(cfg: Settings, file: string, o: nat, w: World)
    requires Running(cfg, file, o, w)
    ensures var v := Pass(cfg, w, Up(file));
      Running(cfg, file, o, v) && Advances(cfg, w, v, Turn(cfg, w.p, Up(file)).1)
  {
    if !LimitReached(cfg, w.p) {
      PassCovers(cfg, o, w);
    }
    PassTally(cfg, w, Up(file));
  }

  /** A read is a few passes. */
  lemma {:induction false} ReadCovers(cfg: Settings, file: string, o: nat, w: World)
    returns (v: World, outcome: Outcome)
    requires Running(cfg, file, o, w)
    ensures ReadLine(cfg, w.p, Up(file)) == (v.p, outcome) && !outcome.Skipped?
    ensures Running(cfg, file, o, v) && Advances(cfg, w, v, outcome)
    decreases Max(cfg.skip - w.p.skipped, 0)
  {
    PassAdvances(cfg, file, o, w);
    v, outcome := Pass(cfg, w, Up(file)), Turn(cfg, w.p, Up(file)).1;
    if outcome.Skipped? {
      v, outcome := ReadCovers(cfg, file, o, v);
    }
  }

  predicate KeepsReading(outcome: Outcome) {
    outcome.Delivered? || outcome == Stopped(NoData)
  }

  /** Together with what came before, a beginning of the right answer, or all of it when finished. */
  ghost predicate Answers(r: Served, before: seq<Line>, right: seq<Line>) {
    before + r.delivered <= right && (r.finished ==> before + r.delivered == right)
  }

  /** A property of a reader and of what it has delivered. */
  type Account = (Progress, seq<Line>) -> bool

  /** A read keeps the property and brings the end nearer, or it stops with the right answer. */
  ghost predicate ReadKeeps(cfg: Settings, file: string, p: Progress, before: seq<Line>, good: Account,
                            right: seq<Line>)
  {
    var read := ReadLine(cfg, p, Up(file));
    if KeepsReading(read.1) then
      && good(read.0, before + if read.1.Delivered? then [read.1.line] else [])
      && Left(file, read.0) < Left(file, p)
    else before == right
  }

  ghost predicate Sound(cfg: Settings, file: string, good: Account, right: seq<Line>) {
    forall p, before {:trigger ReadKeeps(cfg, file, p, before, good, right)} ::
      good(p, before) ==> before <= right && ReadKeeps(cfg, file, p, before, good, right)
  }

  /** A run right so far, that ends once it has read often enough. */
  ghost predicate Works(cfg: Settings, file: string, p: Progress, before: seq<Line>, rounds: nat, right: seq<Line>) {
    && Answers(Serve(cfg, p, file, rounds), before, right)
    && (rounds > Left(file, p) ==> Serve(cfg, p, file, rounds).finished)
  }

  /** Induction over the reads of a run: a property that every read keeps makes the run answer right, and end. */
  lemma {:induction false} ServeInduction(cfg: Settings, file: string, p: Progress, before: seq<Line>, rounds: nat,
                                          good: Account, right: seq<Line>)
    requires Sound(cfg, file, good, right) && good(p, before)
    ensures Works(cfg, file, p, before, rounds, right)
    decreases rounds
  {
    var over, q, more := ReadOnce(cfg, file, p, before, rounds, good, right);
    if !over {
      ServeInduction(cfg, file, q, before + more, rounds - 1, good, right);
      WorksBefore(cfg, file, p, q, before, more, rounds, right);
    }
  }

  /** A run is over with the right answer, or hung up on, or goes on after one read. */
  lemma ReadOnce(cfg: Settings, file: string, p: Progress, before: seq<Line>, rounds: nat, good: Account,
                 right: seq<Line>)
    returns (over: bool, q: Progress, more: seq<Line>)
    requires Sound(cfg, file, good, right) && good(p, before)
    ensures over ==> Works(cfg, file, p, before, rounds, right)
    ensures !over ==> rounds > 0 && good(q, before + more) && Left(file, q) < Left(file, p)
    ensures !over ==> Serve(cfg, p, file, rounds) == After(more, Serve(cfg, q, file, rounds - 1))
  {
    assert ReadKeeps(cfg, file, p, before, good, right) && before <= right;
    var read := ReadLine(cfg, p, Up(file));
    over := rounds == 0 || !KeepsReading(read.1);
    q, more := read.0, if read.1.Delivered? then [read.1.line] else [];
    if rounds > 0 {
      ServeStep(cfg, p, file, rounds, read.0, read.1);
    }
    assert before + [] == before;
  }

  lemma WorksBefore(cfg: Settings, file: string, p: Progress, q: Progress, before: seq<Line>, more: seq<Line>,
                    rounds: nat, right: seq<Line>)
    requires rounds > 0 && Works(cfg, file, q, before + more, rounds - 1, right) && Left(file, q) < Left(file, p)
    requires Serve(cfg, p, file, rounds) == After(more, Serve(cfg, q, file, rounds - 1))
    ensures Works(cfg, file, p, before, rounds, right)
  {
    Regroup(before, more, Serve(cfg, q, file, rounds - 1).delivered);
  }

  /** The property here: some run that kept its accounts got there. */
  ghost function Kept(cfg: Settings, file: string, o: nat): Account {
    (p: Progress, before: seq<Line>) => exists w :: Running(cfg, file, o, w) && w.p == p && w.delivered == before
  }

  lemma KeptSound(cfg: Settings, file: string, o: nat, right: seq<Line>)
    requires right == Select(cfg, LinesFrom(file, o))
    ensures Sound(cfg, file, Kept(cfg, file, o), right)
  {
    forall p, before | Kept(cfg, file, o)(p, before)
      ensures before <= right && ReadKeeps(cfg, file, p, before, Kept(cfg, file, o), right)
    {
      var w :| Running(cfg, file, o, w) && w.p == p && w.delivered == before;
      RunningSound(cfg, file, o, w, right);
    }
  }

  lemma RunningSound(cfg: Settings, file: string, o: nat, w: World, right: seq<Line>)
    requires Running(cfg, file, o, w) && right == Select(cfg, LinesFrom(file, o))
    ensures w.delivered <= right && ReadKeeps(cfg, file, w.p, w.delivered, Kept(cfg, file, o), right)
  {
    DeliveredSoFar(cfg, file, o, w, right);
    var v, outcome := ReadCovers(cfg, file, o, w);
    if KeepsReading(outcome) {
      assert Kept(cfg, file, o)(v.p, v.delivered);
    } else {
      DeliveredSoFar(cfg, file, o, v, right);
    }
  }

  lemma DeliveredSoFar(cfg: Settings, file: string, o: nat, w: World, right: seq<Line>)
    requires Running(cfg, file, o, w) && right == Select(cfg, LinesFrom(file, o))
    ensures w.delivered <= right
    ensures LimitReached(cfg, w.p) || (w.p.buffer == [] && AtEnd(file, w.p.offset)) ==> w.delivered == right
  {
    CoveredPrefix(o, w);
    DeliveredPrefix(cfg, w, LinesFrom(file, o));
  }

  lemma DeliveredPrefix(cfg: Settings, w: World, all: seq<Line>)
    requires Tallied(cfg, w) && Taken(w) <= all
    ensures w.delivered <= Select(cfg, all)
    ensures LimitReached(cfg, w.p) ==> w.delivered == Select(cfg, all)
    ensures w.p.buffer == [] && Taken(w) == all ==> w.delivered == Select(cfg, all)
  {
    assert w.popped <= all;
    assert w.delivered + [] == w.delivered;
    assert w.p.buffer == [] ==> Taken(w) == w.popped;
  }

  /** A beginning of the right answer, or all of it when finished. */
  ghost predicate Fulfils(r: Served, right: seq<Line>) {
    r.delivered <= right && (r.finished ==> r.delivered == right)
  }

  /** A run over a readable file delivers exactly take(limit, drop(skip, lines)), for every skip and
      limit, and the loop that retries on ErrNoData ends within 2|file| + 1 reads. */
  lemma {:induction false} WholeRunExact(cfg: Settings, file: string, o: nat, rounds: nat)
    requires Readable(file, o)
    ensures Fulfils(Serve(cfg, Progress(o, [], 0, 0), file, rounds), Select(cfg, LinesFrom(file, o)))
    ensures rounds > 2 * |file| ==> Serve(cfg, Progress(o, [], 0, 0), file, rounds).finished
  {
    if o <= |file| {
      LinesInEmpty(file, o);
    }
    assert Taken(Start(file, o)) == [];
    assert Kept(cfg, file, o)(Start(file, o).p, []);
    KeptSound(cfg, file, o, Select(cfg, LinesFrom(file, o)));
    ServeInduction(cfg, file, Progress(o, [], 0, 0), [], rounds, Kept(cfg, file, o), Select(cfg, LinesFrom(file, o)));
    var served := Serve(cfg, Progress(o, [], 0, 0), file, rounds);
    assert [] + served.delivered == served.delivered;
  }

  /** Nothing skipped, no limit: reads are single passes and every popped line is delivered. */
  predicate Raw(cfg: Settings) {
    cfg.skip <= 0 && Unlimited(cfg)
  }

  lemma {:induction false} RawRead(cfg: Settings, p: Progress, file: string)
    requires Raw(cfg) && p.buffer != []
    ensures var last := |p.buffer| - 1;
      ReadLine(cfg, p, Up(file))
      == (p.(buffer := p.buffer[..last], readLines := p.readLines + 1), Delivered(p.buffer[last]))
  {
  }

  /** What is left of a reader once its buffer has been delivered. */
  function Emptied(p: Progress): Progress {
    p.(buffer := [], readLines := p.readLines + |p.buffer|)
  }

  /** A finished run has delivered its buffer first. */
  lemma {:induction false} ServePops(cfg: Settings, p: Progress, file: string, rounds: nat, e: Progress)
    returns (more: nat)
    requires Raw(cfg) && Serve(cfg, p, file, rounds).finished && e == Emptied(p)
    ensures Serve(cfg, p, file, rounds) == After(Rev(p.buffer), Serve(cfg, e, file, more))
    decreases rounds
  {
    if p.buffer == [] {
      more := rounds;
      PoppedNone(Serve(cfg, p, file, rounds));
    } else {
      var x, rest := p.buffer[|p.buffer| - 1], p.buffer[..|p.buffer| - 1];
      var q := p.(buffer := rest, readLines := p.readLines + 1);
      ServePop(cfg, p, q, file, rounds, x);
      more := ServePops(cfg, q, file, rounds - 1, e);
      PoppedFirst(p.buffer, rest, x, Serve(cfg, e, file, more));
    }
  }

  lemma PoppedNone(r: Served)
    ensures After(Rev([]), r) == r
  {
    assert Rev<Line>([]) == [] && [] + r.delivered == r.delivered;
  }

  lemma PoppedFirst(buffer: seq<Line>, rest: seq<Line>, x: Line, r: Served)
    requires buffer != [] && x == buffer[|buffer| - 1] && rest == buffer[..|buffer| - 1]
    ensures After([x], After(Rev(rest), r)) == After(Rev(buffer), r)
  {
    assert buffer == rest + [x];
    RevSnoc(rest, x);
    AfterAfter([x], Rev(rest), r);
  }

  /** One round delivers the last buffered line. */
  lemma ServePop(cfg: Settings, p: Progress, q: Progress, file: string, rounds: nat, x: Line)
    requires Raw(cfg) && rounds > 0 && p.buffer != [] && x == p.buffer[|p.buffer| - 1]
    requires q == p.(buffer := p.buffer[..|p.buffer| - 1], readLines := p.readLines + 1)
    ensures Serve(cfg, p, file, rounds) == After([x], Serve(cfg, q, file, rounds - 1))
  {
    RawRead(cfg, p, file);
    ServeStep(cfg, p, file, rounds, q, Delivered(x));
  }

  /** A finished run from an empty buffer delivered the lines of its next request first. */
  lemma ServeTakes(cfg: Settings, p: Progress, file: string, rounds: nat) returns (q: Progress, more: nat)
    requires Raw(cfg) && Serve(cfg, p, file, rounds).finished
    requires p.buffer == [] && !AtEnd(file, p.offset)
    requires var l := Land(file, p.offset); p.offset <= l.upTo <= |file| && LinesIn(file, p.offset, l.upTo) != []
    ensures var l := Land(file, p.offset);
      && q.buffer == [] && q.offset == l.offset && Serve(cfg, q, file, more).finished
      && Serve(cfg, p, file, rounds).delivered
         == LinesIn(file, p.offset, l.upTo) + Serve(cfg, q, file, more).delivered
  {
    StockLands(p, file);
    var stocked := Stock(p, Up(file)).value;
    assert Turn(cfg, p, Up(file)) == Turn(cfg, stocked, Up(file));
    assert Serve(cfg, p, file, rounds) == Serve(cfg, stocked, file, rounds);
    q := Emptied(stocked);
    more := ServePops(cfg, stocked, file, rounds, q);
    RevRev(LinesIn(file, p.offset, Land(file, p.offset).upTo));
  }

  /** A full first window that does not end on a newline: the run ends, if it does, with overlapping lines. */
  lemma {:induction false} TornRunWrong(cfg: Settings, file: string, o: nat, rounds: nat)
    requires Raw(cfg) && o + CHUNK_SIZE <= |file| && !Parks(file, o)
    requires Serve(cfg, Progress(o, [], 0, 0), file, rounds).finished
    ensures !Apart(Serve(cfg, Progress(o, [], 0, 0), file, rounds).delivered)
  {
    var e := o + CHUNK_SIZE;
    FullWindow(file, o);
    LastLineEnds(file, o, e);
    var q, more := ServeTakes(cfg, Progress(o, [], 0, 0), file, rounds);
    RereadWrong(cfg, file, q, more, LinesIn(file, o, e));
  }

  lemma {:induction false} RereadWrong(cfg: Settings, file: string, q: Progress, rounds: nat, a: seq<Line>)
    requires Raw(cfg) && q.buffer == [] && q.offset < |file| && file[q.offset] != NL
    requires Serve(cfg, q, file, rounds).finished
    requires a != [] && q.offset < a[|a| - 1].offset + a[|a| - 1].size
    ensures !Apart(a + Serve(cfg, q, file, rounds).delivered)
  {
    AtEndIff(file, q.offset);
    LandInside(file, q.offset);
    FirstLineStarts(file, q.offset, Land(file, q.offset).upTo);
    var q2, more := ServeTakes(cfg, q, file, rounds);
    Overlap(a, LinesIn(file, q.offset, Land(file, q.offset).upTo), Serve(cfg, q2, file, more).delivered);
  }

  lemma Overlap(a: seq<Line>, b: seq<Line>, c: seq<Line>)
    requires a != [] && b != [] && b[0].offset < a[|a| - 1].offset + a[|a| - 1].size
    ensures !Apart(a + (b + c))
  {
    var all := a + (b + c);
    assert all[|a| - 1] == a[|a| - 1] && all[|a|] == b[0];
  }

  /** A newline after which the next one is out of reach. */
  ghost predicate Barrier(file: string, o: nat, at: nat) {
    o <= at < |file| - 1 && !Bridged(file, at)
  }

  lemma BarrierHolds(file: string, o: nat, at: nat, e: nat)
    requires Barrier(file, o, at) && e < |file| && file[e] == NL && e < at + CHUNK_SIZE
    ensures e <= at
  {
    forall i | at < i < |file| && i < at + CHUNK_SIZE ensures file[i] != NL {
      assert file[i] == Window(file, at + 1, CHUNK_SIZE - 1)[i - at - 1];
    }
  }

  /** Lines that end no further than `at`. */
  ghost predicate Upto(ls: seq<Line>, at: nat) {
    forall i :: 0 <= i < |ls| ==> ls[i].offset + ls[i].size <= at
  }

  lemma LinesUpto(file: string, lo: nat, hi: nat, at: nat)
    requires lo <= hi <= |file| && hi <= at
    ensures Upto(LinesIn(file, lo, hi), at) && Upto(Rev(LinesIn(file, lo, hi)), at)
  {
    LinesAreLines(file, lo, hi);
  }

  /** A reader that stands before a barrier, on a newline or about to park. */
  ghost predicate Blocked(file: string, o: nat, at: nat, p: Progress) {
    && Barrier(file, o, at) && p.offset <= at && Upto(p.buffer, at)
    && ((p.offset == o && Parks(file, o)) || (o <= p.offset && 0 < p.offset && file[p.offset] == NL))
  }

  lemma StockBlocked(file: string, o: nat, at: nat, p: Progress)
    requires Blocked(file, o, at, p)
    ensures Stock(p, Up(file)).Ok? && Blocked(file, o, at, Stock(p, Up(file)).value)
  {
    if p.buffer == [] {
      StockLands(p, file);
      AtEndIff(file, p.offset);
      if p.offset == 0 {
        BarrierHolds(file, o, at, CHUNK_SIZE - 1);
        LinesStopNewline(file, 0, CHUNK_SIZE - 1);
        LinesUpto(file, 0, CHUNK_SIZE - 1, at);
      } else {
        assert file[p.offset] == Window(file, p.offset, CHUNK_SIZE)[0];
        var e := LastNewline(file, p.offset);
        BarrierHolds(file, o, at, e);
        LinesUpto(file, p.offset, e, at);
      }
    }
  }

  lemma ReadBlocked(cfg: Settings, file: string, o: nat, at: nat, p: Progress) returns (q: Progress, outcome: Outcome)
    requires Raw(cfg) && Blocked(file, o, at, p)
    ensures ReadLine(cfg, p, Up(file)) == (q, outcome) && Blocked(file, o, at, q)
    ensures outcome == Stopped(NoData) || (outcome.Delivered? && outcome.line.offset + outcome.line.size <= at)
  {
    StockBlocked(file, o, at, p);
    var r := ReadLine(cfg, p, Up(file));
    q, outcome := r.0, r.1;
  }

  /** A run that never gets past `at`. */
  ghost predicate Stalls(r: Served, at: nat) {
    !r.finished && Upto(r.delivered, at)
  }

  lemma StallsAfter(more: seq<Line>, r: Served, at: nat)
    requires Stalls(r, at) && Upto(more, at)
    ensures Stalls(After(more, r), at)
  {
  }

  /** One round before a barrier. */
  lemma BlockedRound(cfg: Settings, file: string, o: nat, at: nat, p: Progress, rounds: nat)
    returns (q: Progress, more: seq<Line>)
    requires Raw(cfg) && Blocked(file, o, at, p) && rounds > 0
    ensures Blocked(file, o, at, q) && Upto(more, at)
    ensures Serve(cfg, p, file, rounds) == After(more, Serve(cfg, q, file, rounds - 1))
  {
    var outcome: Outcome;
    q, outcome := ReadBlocked(cfg, file, o, at, p);
    ServeStep(cfg, p, file, rounds, q, outcome);
    more := if outcome.Delivered? then [outcome.line] else [];
  }

  /** A reader that stands before a barrier never gets past it: it does not reach EOF, and nothing after the
      barrier is ever delivered. */
  lemma {:induction false} NeverFinishes(cfg: Settings, file: string, o: nat, at: nat, p: Progress, rounds: nat)
    requires Raw(cfg) && Blocked(file, o, at, p)
    ensures Stalls(Serve(cfg, p, file, rounds), at)
    decreases rounds
  {
    if rounds > 0 {
      var q, more := BlockedRound(cfg, file, o, at, p, rounds);
      NeverFinishes(cfg, file, o, at, q, rounds - 1);
      StallsAfter(more, Serve(cfg, q, file, rounds - 1), at);
    }
  }

  /** A run of some reads that finishes with exactly the non-blank lines from its start. */
  ghost predicate Meets(cfg: Settings, file: string, o: nat, rounds: nat) {
    var r := Serve(cfg, Progress(o, [], 0, 0), file, rounds);
    r.finished && r.delivered == LinesFrom(file, o)
  }

  /** When the chunked reader meets its specification: a run without skip and limit finishes with
      exactly the lines from its start if and only if the file is readable from there. */
  lemma WholeRunIff(cfg: Settings, file: string, o: nat)
    requires Raw(cfg)
    ensures (exists rounds :: Meets(cfg, file, o, rounds)) <==> Readable(file, o)
  {
    if Readable(file, o) {
      var rounds := 2 * |file| + 1;
      WholeRunExact(cfg, file, o, rounds);
      assert Select(cfg, LinesFrom(file, o)) == LinesFrom(file, o);
      assert Meets(cfg, file, o, rounds);
    } else {
      forall rounds ensures !Meets(cfg, file, o, rounds) {
        UnreadableFails(cfg, file, o, rounds);
      }
    }
  }

  lemma UnreadableFails(cfg: Settings, file: string, o: nat, rounds: nat)
    requires Raw(cfg) && !Readable(file, o)
    ensures !Meets(cfg, file, o, rounds)
  {
    UnreadableTorn(cfg, file, o, rounds);
    LinesAreLines(file, o, |file|);
  }

  /** A run that should not have been started never finishes, or its lines overlap. */
  lemma {:induction false} UnreadableTorn(cfg: Settings, file: string, o: nat, rounds: nat)
    requires Raw(cfg) && !Readable(file, o)
    ensures var r := Serve(cfg, Progress(o, [], 0, 0), file, rounds); r.finished ==> !Apart(r.delivered)
  {
    var p := Progress(o, [], 0, 0);
    if Parks(file, o) {
      var at :| o <= at < |file| - 1 && !Bridged(file, at);
      NeverFinishes(cfg, file, o, at, p, rounds);
    } else if Serve(cfg, p, file, rounds).finished {
      WholeWindow(file, o);
      TornRunWrong(cfg, file, o, rounds);
    }
  }

  /** Standing on a newline before the end, the one thing that matters is where the other newlines are. */
  lemma ReadableOn(file: string, e: nat)
    requires 0 < e < |file| && file[e] == NL
    ensures Readable(file, e) <==> Dense(file, e)
  {
    assert Window(file, e, CHUNK_SIZE)[0] == NL;
    assert file[e..][0] == NL;
  }

  lemma FindBarrier(file: string, e: nat) returns (at: nat)
    requires 0 < e <= |file| && !Readable(file, e) && (e == |file| || file[e] == NL)
    ensures Barrier(file, e, at) && Blocked(file, e, at, Progress(e, [], 0, 0))
  {
    assert Window(file, e, CHUNK_SIZE)[0] == NL;
    at :| e <= at < |file| - 1 && !Bridged(file, at);
  }

  /** A last newline before the end has no successor. */
  lemma BreaksDense(file: string, e: nat)
    requires e < |file| && file[e] == NL && file[|file| - 1] != NL
    ensures !Dense(file, e)
  {
    assert file[e..][0] == NL;
    var m := FinalNewline(file, e, |file|);
    var w, rest := Window(file, m + 1, CHUNK_SIZE - 1), file[m + 1..|file|];
    assert forall i :: 0 <= i < |w| ==> w[i] == rest[i];
    assert !Bridged(file, m);
  }

  /** A newline at the end is in reach of every newline of the last CHUNK_SIZE bytes. */
  lemma DenseNearEnd(file: string, e: nat)
    requires e < |file| <= e + CHUNK_SIZE && file[|file| - 1] == NL
    ensures Dense(file, e)
  {
    forall i | e <= i < |file| - 1 ensures Bridged(file, i) {
      assert Window(file, i + 1, CHUNK_SIZE - 1)[|file| - 2 - i] == NL;
    }
  }
}
