/** Runs of a reader against a file that may grow between any two passes of its read loop. */
module Runs {
  import opened Prelude
  import opened Text
  import opened Lines
  import opened FilesReader
  import opened Refills

  /** The file, the reader, and (for the statements only) the lines popped and delivered so far. */
  datatype World = World(file: string, p: Progress, popped: seq<Line>, delivered: seq<Line>)

  /** The writer appends any bytes; the reader makes one pass; a pass meets a failing files API. */
  datatype Event = Write(bytes: string) | Poll | PollDown(outage: Outage)

  function Start(file: string, o: nat): World {
    World(file, Progress(o, [], 0, 0), [], [])
  }

  function Pass(cfg: Settings, w: World, server: Server): World {
    match Turn(cfg, w.p, server)
    case (q, Skipped(l)) => w.(p := q, popped := w.popped + [l])
    case (q, Delivered(l)) => w.(p := q, popped := w.popped + [l], delivered := w.delivered + [l])
    case (q, Stopped(_)) => w.(p := q)
  }

  function Apply(cfg: Settings, w: World, e: Event): World {
    match e
    case Write(bytes) => w.(file := w.file + bytes)
    case Poll => Pass(cfg, w, Up(w.file))
    case PollDown(outage) => Pass(cfg, w, Down(outage))
  }

  function Run(cfg: Settings, w: World, events: seq<Event>): World
    decreases |events|
  {
    if events == [] then w else Run(cfg, Apply(cfg, w, events[0]), events[1..])
  }

  /** Whether a reader's limit can ever stop it. */
  predicate Unlimited(cfg: Settings) {
    cfg.stream || cfg.readLimit <= 0
  }

  /** Lines known to the reader, in the order it pops them. */
  function Taken(w: World): seq<Line> {
    w.popped + Rev(w.p.buffer)
  }

  /** Counters agree with what was popped: the first `skip` lines are passed over, the rest delivered,
      and a non-stream reader never delivers more than its limit. */
  ghost predicate Tallied(cfg: Settings, w: World) {
    && w.p.skipped == Min(Max(cfg.skip, 0), |w.popped|)
    && w.delivered == w.popped[w.p.skipped..]
    && w.p.readLines == |w.delivered|
    && (!cfg.stream && cfg.readLimit > 0 ==> |w.delivered| <= cfg.readLimit)
  }

  lemma PassTally(cfg: Settings, w: World, server: Server)
    requires Tallied(cfg, w)
    ensures Tallied(cfg, Pass(cfg, w, server))
  {
  }

  lemma {:induction false} RunTallies(cfg: Settings, w: World, events: seq<Event>)
    requires Tallied(cfg, w)
    ensures Tallied(cfg, Run(cfg, w, events)) && w.file <= Run(cfg, w, events).file
    decreases |events|
  {
    if events != [] {
      if !events[0].Write? {
        PassTally(cfg, w, if events[0].Poll? then Up(w.file) else Down(events[0].outage));
      }
      RunTallies(cfg, Apply(cfg, w, events[0]), events[1..]);
    }
  }

  /** A pass that finds lines buffered only pops; the lines taken do not change. */
  lemma PassPops(cfg: Settings, w: World, server: Server)
    requires w.p.buffer != [] && !LimitReached(cfg, w.p)
    ensures var v := Pass(cfg, w, server);
      && v.file == w.file && v.p.offset == w.p.offset
      && v.p.buffer == w.p.buffer[..|w.p.buffer| - 1]
      && v.popped == w.popped + [Rev(w.p.buffer)[0]]
      && Taken(v) == Taken(w)
  {
    var last := |w.p.buffer| - 1;
    assert w.p.buffer == w.p.buffer[..last] + [w.p.buffer[last]];
    RevSnoc(w.p.buffer[..last], w.p.buffer[last]);
    Regroup(w.popped, [w.p.buffer[last]], Rev(w.p.buffer[..last]));
  }

  /** A pass that finds nothing buffered takes the lines up to where its request lands. */
  lemma PassFills(cfg: Settings, w: World)
    requires w.p.buffer == [] && !LimitReached(cfg, w.p)
    ensures AtEnd(w.file, w.p.offset) ==>
      Turn(cfg, w.p, Up(w.file)).1 == Stopped(EOF) && Pass(cfg, w, Up(w.file)) == w
    ensures !AtEnd(w.file, w.p.offset) ==>
      var l, v := Land(w.file, w.p.offset), Pass(cfg, w, Up(w.file));
      && w.p.offset <= l.upTo <= |w.file|
      && v.file == w.file && v.p.offset == l.offset
      && Taken(v) == w.popped + LinesIn(w.file, w.p.offset, l.upTo)
      && |v.popped| == |w.popped| + Min(1, |LinesIn(w.file, w.p.offset, l.upTo)|)
  {
    StockLands(w.p, w.file);
    if !AtEnd(w.file, w.p.offset) {
      var ls := LinesIn(w.file, w.p.offset, Land(w.file, w.p.offset).upTo);
      RevRev(ls);
      PassStocked(cfg, w, Stock(w.p, Up(w.file)).value);
      assert w.popped + [] == w.popped;
    }
  }

  /** Filling the buffer and popping from it is one pass. */
  lemma PassStocked(cfg: Settings, w: World, stocked: Progress)
    requires w.p.buffer == [] && !LimitReached(cfg, w.p) && Stock(w.p, Up(w.file)) == Ok(stocked)
    requires stocked.readLines == w.p.readLines
    ensures var v := Pass(cfg, w, Up(w.file));
      && v.file == w.file && v.p.offset == stocked.offset
      && Taken(v) == w.popped + Rev(stocked.buffer)
      && |v.popped| == |w.popped| + Min(1, |stocked.buffer|)
  {
    if stocked.buffer != [] {
      assert Pass(cfg, w, Up(w.file)) == Pass(cfg, w.(p := stocked), Up(w.file));
      PassPops(cfg, w.(p := stocked), Up(w.file));
    }
  }

  lemma PassDown(cfg: Settings, w: World, outage: Outage)
    ensures var v := Pass(cfg, w, Down(outage));
      v.file == w.file && v.p.offset == w.p.offset && Taken(v) == Taken(w)
  {
    if w.p.buffer != [] && !LimitReached(cfg, w.p) {
      PassPops(cfg, w, Down(outage));
    }
  }

  /** The reader stands on a newline and has taken exactly the lines between its start and there. */
  ghost predicate Parked(o: nat, w: World) {
    && 0 < w.p.offset < |w.file| && o <= w.p.offset
    && w.file[w.p.offset] == NL
    && Taken(w) == LinesIn(w.file, o, w.p.offset)
  }

  lemma PassKeepsParked(cfg: Settings, o: nat, w: World)
    requires Parked(o, w)
    ensures Parked(o, Pass(cfg, w, Up(w.file)))
    ensures Pass(cfg, w, Up(w.file)).file == w.file
  {
    if !LimitReached(cfg, w.p) {
      if w.p.buffer != [] {
        PassPops(cfg, w, Up(w.file));
      } else {
        FillKeepsParked(cfg, o, w);
      }
    }
  }

  lemma FillKeepsParked(cfg: Settings, o: nat, w: World)
    requires Parked(o, w) && w.p.buffer == [] && !LimitReached(cfg, w.p)
    ensures Parked(o, Pass(cfg, w, Up(w.file)))
    ensures Pass(cfg, w, Up(w.file)).file == w.file
  {
    PassFills(cfg, w);
    if !AtEnd(w.file, w.p.offset) {
      assert Taken(w) == w.popped;
      ParkedLands(w.file, w.p.offset);
      ParkedMore(w.file, o, w.p.offset, LastNewline(w.file, w.p.offset));
    }
  }

  /** From a newline every request parks on a newline. */
  lemma ParkedLands(file: string, at: nat)
    requires 0 < at < |file| && file[at] == NL && !AtEnd(file, at)
    ensures NL in Window(file, at, CHUNK_SIZE) && at <= LastNewline(file, at)
    ensures Land(file, at) == Landing(LastNewline(file, at), LastNewline(file, at))
  {
    assert Window(file, at, CHUNK_SIZE)[0] == NL;
  }

  lemma ParkedMore(file: string, o: nat, at: nat, e: nat)
    requires o <= at <= e < |file| && file[at] == NL
    ensures LinesIn(file, o, at) + LinesIn(file, at, e) == LinesIn(file, o, e)
  {
    if at < e {
      LinesSplit(file, o, at, e);
      LinesSkipNewline(file, at, e);
    } else {
      LinesInEmpty(file, at);
    }
  }

  lemma ApplyKeepsParked(cfg: Settings, o: nat, w: World, e: Event)
    requires Parked(o, w)
    ensures Parked(o, Apply(cfg, w, e)) && w.file <= Apply(cfg, w, e).file
  {
    match e
    case Write(bytes) => LinesInGrow(w.file, w.file + bytes, o, w.p.offset);
    case Poll => PassKeepsParked(cfg, o, w);
    case PollDown(outage) => PassDown(cfg, w, outage);
  }
}
