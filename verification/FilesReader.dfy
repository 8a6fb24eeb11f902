/** The line reader over the Mesos files API (mesos/files/reader/read.go and option.go). The API is an
    append-only file of which at most CHUNK_SIZE bytes are returned per request; every request sees
    the file as it is at that moment. */
module FilesReader {
  import opened Prelude
  import opened Text
  import opened Lines

  const CHUNK_SIZE: nat := 65536

  datatype Outage = NotFound | BadResponse
  datatype ReadError = EOF | NoData | Failed(outage: Outage)

  /** What a request meets: the file as it is now, or a failure. */
  datatype Server = Up(file: string) | Down(outage: Outage)

  /** One decoded response: its lines and the length of the partial last line held back. */
  datatype Chunk = Chunk(lines: seq<Line>, delta: nat)

  /** The data the files API returns for an offset and a length. */
  function Window(file: string, offset: nat, length: nat): (data: string)
    ensures |data| <= length
  {
    if offset >= |file| then "" else file[offset..Min(offset + length, |file|)]
  }

  /** A last piece that is not the only one is shorter than the text. */
  lemma {:induction false} LastPieceShort(s: string)
    ensures var pieces := Split(s, NL); |pieces| > 1 ==> |pieces[|pieces| - 1]| < |s|
  {
    if NL in s {
      SplitAtLast(s, NL);
    } else {
      SplitNone(s, NL);
    }
  }

  /** ReadManager.read: split a response, hold back the last piece when the window starts inside the file. */
  function Fetch(server: Server, offset: nat, length: nat, backwards: bool): (r: Result<Chunk, ReadError>)
    ensures r.Ok? ==> |r.value.lines| >= 1 && r.value.delta < length
  {
    match server
    case Down(outage) => Err(Failed(outage))
    case Up(file) =>
      var data := Window(file, offset, length);
      if data == "" || data == [NL] then Err(EOF)
      else
        var text := if backwards then Rev(data) else data;
        var pieces := Split(text, NL);
        if offset > 0 && |pieces| > 1 then
          var last := |pieces| - 1;
          LastPieceShort(text);
          Ok(Chunk(Label(pieces[..last], offset), |pieces[last]|))
        else Ok(Chunk(Label(pieces, offset), 0))
  }

  /** Bytes the lines take in the file, a newline counted after each. */
  function LinesLen(ls: seq<Line>): nat {
    if ls == [] then 0 else |ls[0].message| + 1 + LinesLen(ls[1..])
  }

  lemma {:induction false} LinesLenConcat(a: seq<Line>, b: seq<Line>)
    ensures LinesLen(a + b) == LinesLen(a) + LinesLen(b)
  {
    if a == [] {
      assert a + b == b;
    } else {
      LinesLenConcat(a[1..], b);
      assert (a + b)[1..] == a[1..] + b;
    }
  }

  lemma {:induction false} LinesLenLabel(ps: seq<string>, at: int)
    ensures LinesLen(Label(ps, at)) == Extent(ps)
  {
    if ps != [] {
      LinesLenLabel(ps[1..], at + |ps[0]| + 1);
    }
  }

  /** The parameters a reader is built with, and what changes while it reads. */
  datatype Settings = Settings(skip: int, readLimit: int, stream: bool)
  datatype Progress = Progress(offset: nat, buffer: seq<Line>, skipped: nat, readLines: nat)

  /** The result of one pass of the read loop: a line popped and passed over, a line popped and
      handed out, or an error. */
  datatype Outcome = Skipped(line: Line) | Delivered(line: Line) | Stopped(error: ReadError)

  /** Buffer a chunk and move the offset: onto the newline ending its last complete line, if it has one. */
  function Refill(p: Progress, chunk: Chunk): Progress
    requires |chunk.lines| >= 1 && chunk.delta < CHUNK_SIZE
  {
    var linesLen := LinesLen(chunk.lines);
    p.(buffer := Rev(NonBlank(chunk.lines)) + p.buffer,
       offset := if linesLen < CHUNK_SIZE then p.offset + linesLen - 1
                 else p.offset + CHUNK_SIZE - chunk.delta - 1)
  }

  /** Lines from the buffer while there are any, from the server otherwise. */
  function Stock(p: Progress, server: Server): Result<Progress, ReadError> {
    if p.buffer != [] then Ok(p)
    else
      match Fetch(server, p.offset, CHUNK_SIZE, false)
      case Err(e) => Err(e)
      case Ok(chunk) => Ok(Refill(p, chunk))
  }

  predicate LimitReached(cfg: Settings, p: Progress) {
    !cfg.stream && cfg.readLimit > 0 && p.readLines == cfg.readLimit
  }

  /** The last buffered line, passed over or handed out. */
  function TakeLine(cfg: Settings, q: Progress): (r: (Progress, Outcome))
    ensures r.1.Skipped? ==> r.0.skipped == q.skipped + 1 <= cfg.skip
  {
    if q.buffer == [] then (q, Stopped(NoData))
    else
      var last := |q.buffer| - 1;
      var rest := q.(buffer := q.buffer[..last]);
      if cfg.skip > 0 && q.skipped < cfg.skip
      then (rest.(skipped := q.skipped + 1), Skipped(q.buffer[last]))
      else (rest.(readLines := q.readLines + 1), Delivered(q.buffer[last]))
  }

  /** One pass of ReadManager.Read from its start label. */
  function Turn(cfg: Settings, p: Progress, server: Server): (r: (Progress, Outcome))
    ensures r.1.Skipped? ==> r.0.skipped == p.skipped + 1 <= cfg.skip
  {
    if LimitReached(cfg, p) then (p, Stopped(EOF))
    else
      match Stock(p, server)
      case Err(e) => (p, Stopped(e))
      case Ok(q) => TakeLine(cfg, q)
  }

  /** ReadManager.Read up to formatting: passes until a line is not skipped. */
  function ReadLine(cfg: Settings, p: Progress, server: Server): (r: (Progress, Outcome))
    ensures !r.1.Skipped?
    decreases Max(cfg.skip - p.skipped, 0)
  {
    var (q, outcome) := Turn(cfg, p, server);
    if outcome.Skipped? then ReadLine(cfg, q, server) else (q, outcome)
  }

  /** strings.NewReader(text).Read(b): at most len(b) bytes, and the rest of the line is dropped. */
  function Emit(text: string, bufLen: nat): Result<string, ReadError> {
    if text == "" then Err(EOF) else Ok(text[..Min(bufLen, |text|)])
  }

  /** Bytes calcOffset walks back over: up to `want` non-blank lines and the blank ones between them. */
  function Consumed(ls: seq<Line>, want: int): nat {
    if want <= 0 || ls == [] then 0
    else |ls[0].message| + 1 + Consumed(ls[1..], if ls[0].message != "" then want - 1 else want)
  }

  /** How a round of calcOffset ends: with the final offset and error, or with the next window to scan. */
  datatype Round = Settled(pos: int, err: Option<ReadError>) | Onward(next: nat, found: nat)

  /** What calcOffset makes of a window; `pos` is the reader's offset, `found` the lines of earlier rounds. */
  function Judge(window: Result<Chunk, ReadError>, skip: int, offset: nat, pos: int, found: nat): (r: Round)
    requires window.Ok? ==> window.value.delta < CHUNK_SIZE
    ensures r.Onward? ==> r.next < offset
  {
    match window
    case Err(e) => Settled(pos, Some(e))
    case Ok(chunk) =>
      if found + |chunk.lines| >= Abs(skip) then Settled(pos - Consumed(chunk.lines, Abs(skip)), None)
      else
        var next := offset - (CHUNK_SIZE - chunk.delta);
        if next < 0 then Settled(0, None) else Onward(next, found + |chunk.lines|)
  }

  /** One round of calcOffset. */
  function ScanRound(server: Server, skip: int, offset: nat, length: nat, pos: int, found: nat): (r: Round)
    requires length <= CHUNK_SIZE
    ensures r.Onward? ==> r.next < offset
  {
    Judge(Fetch(server, offset, length, true), skip, offset, pos, found)
  }

  /** calcOffset: rounds until one settles. Each leaves the reader's offset at the window it scans next. */
  function Scan(server: Server, skip: int, offset: nat, length: nat, pos: int, found: nat)
    : (r: (int, Option<ReadError>))
    requires length <= CHUNK_SIZE
    decreases offset
  {
    match ScanRound(server, skip, offset, length, pos, found)
    case Settled(settled, err) => (settled, err)
    case Onward(next, more) => Scan(server, skip, next, CHUNK_SIZE, next, more)
  }

  /** The options NewLineReader takes. */
  datatype Opt =
    | OptLines(n: int)
    | OptSkip(n: int)
    | OptReadDirection(bottomToTop: bool)
    | OptStream(stream: bool)
    | OptOffset(n: int)
    | OptReadFromEnd

  /** A reader being configured. */
  datatype Config = Config(settings: Settings, bottomToTop: bool, offset: int)

  const DEFAULTS := Config(Settings(0, 0, false), false, 0)

  datatype OpenError = InvalidOffset(n: int) | Unavailable(error: ReadError)

  function ApplyOpt(c: Config, opt: Opt, server: Server): Result<Config, OpenError> {
    match opt
    case OptLines(n) => Ok(c.(settings := c.settings.(readLimit := n)))
    case OptSkip(n) => Ok(c.(settings := c.settings.(skip := n)))
    case OptReadDirection(b) => Ok(c.(bottomToTop := b))
    case OptStream(b) => Ok(c.(settings := c.settings.(stream := b)))
    case OptOffset(n) => if n < 0 then Err(InvalidOffset(n)) else Ok(c.(offset := n))
    case OptReadFromEnd =>
      match server
      case Up(file) => Ok(c.(offset := |file|))
      case Down(outage) => Err(Unavailable(Failed(outage)))
  }

  function ApplyOpts(c: Config, opts: seq<Opt>, server: Server): Result<Config, OpenError>
    decreases |opts|
  {
    if opts == [] then Ok(c)
    else
      match ApplyOpt(c, opts[0], server)
      case Err(e) => Err(e)
      case Ok(d) => ApplyOpts(d, opts[1..], server)
  }

  /** The offset set-up at the end of NewLineReader, with its guard against negative offsets. */
  function StartOffset(c: Config, server: Server): Result<nat, ReadError>
    requires c.offset >= 0
  {
    if c.bottomToTop && c.settings.skip != 0 then
      Guarded(Scan(server, c.settings.skip, Max(c.offset - CHUNK_SIZE, 0), Min(c.offset, CHUNK_SIZE), c.offset, 0))
    else Ok(c.offset)
  }

  /** EOF does not stop the set-up, and a negative offset becomes 0. */
  function Guarded(scanned: (int, Option<ReadError>)): Result<nat, ReadError> {
    if scanned.1.Some? && scanned.1.value != EOF then Err(scanned.1.value) else Ok(Max(scanned.0, 0))
  }

  /** NewLineReader: the settings and the progress a reader starts with. */
  function Open(opts: seq<Opt>, server: Server): Result<(Settings, Progress), OpenError> {
    match ApplyOpts(DEFAULTS, opts, server)
    case Err(e) => Err(e)
    case Ok(c) =>
      ApplyOptsOffset(DEFAULTS, opts, server);
      match StartOffset(c, server)
      case Err(e) => Err(Unavailable(e))
      case Ok(start) => Ok((c.settings, Progress(start, [], 0, 0)))
  }

  lemma {:induction false} ApplyOptsOffset(c: Config, opts: seq<Opt>, server: Server)
    requires c.offset >= 0
    ensures ApplyOpts(c, opts, server).Ok? ==> ApplyOpts(c, opts, server).value.offset >= 0
    decreases |opts|
  {
    if opts != [] && ApplyOpt(c, opts[0], server).Ok? {
      ApplyOptsOffset(ApplyOpt(c, opts[0], server).value, opts[1..], server);
    }
  }

  lemma {:induction false} LabelNext(ps: seq<string>, i: nat, at: int)
    requires i < |ps|
    ensures Label(ps[i..], at) == [Line(ps[i], at, |ps[i]|)] + Label(ps[i + 1..], at + |ps[i]| + 1)
  {
    assert ps[i..][0] == ps[i] && ps[i..][1..] == ps[i + 1..];
  }

  class ReadManager {
    const format: Line -> string
    var bottomToTop: bool
    var readLimit: int
    var skip: int
    var skipped: int
    var offset: int
    var lines: seq<Line>
    var readLines: int
    var stream: bool

    ghost predicate Valid()
      reads this
    {
      offset >= 0 && skipped >= 0 && readLines >= 0
    }

    ghost function Configured(): Settings
      reads this
    {
      Settings(skip, readLimit, stream)
    }

    ghost function Reached(): Progress
      requires Valid()
      reads this
    {
      Progress(offset, lines, skipped, readLines)
    }

    constructor (format: Line -> string)
      ensures Valid() && this.format == format
      ensures Configured() == DEFAULTS.settings && bottomToTop == DEFAULTS.bottomToTop
      ensures Reached() == Progress(DEFAULTS.offset, [], 0, 0)
    {
      this.format := format;
      bottomToTop, readLimit, skip, skipped, offset, lines, readLines, stream := false, 0, 0, 0, 0, [], 0, false;
    }

    /** Put a line in front of the buffer unless it is blank. */
    method Prepend(s: Line)
      modifies this`lines
      ensures lines == Rev(NonBlank([s])) + old(lines)
    {
      if s.message == "" {
        return;
      }
      lines := [s] + lines;
    }

    /** Take a line from the end of the buffer. */
    method Pop() returns (x: Option<Line>)
      modifies this`lines
      ensures old(lines) == [] ==> x == None && lines == []
      ensures old(lines) != [] ==> x.Some? && old(lines) == lines + [x.value]
    {
      var n := |lines|;
      if n == 0 {
        return None;
      }
      x := Some(lines[n - 1]);
      lines := lines[..n - 1];
    }

    /** read: request a window, split it, label its lines with their offsets. */
    method FetchChunk(server: Server, at: nat, length: nat, backwards: bool) returns (r: Result<Chunk, ReadError>)
      ensures r == Fetch(server, at, length, backwards)
      ensures server.Down? ==> r == Err(Failed(server.outage))
    {
      if server.Down? {
        return Err(Failed(server.outage));
      }
      var data := Window(server.file, at, length);
      if data == "" || data == [NL] {
        return Err(EOF);
      }
      if backwards {
        data := Reverse(data);
      }
      var pieces := Split(data, NL);
      var delta := 0;
      if at > 0 && |pieces| > 1 {
        delta := |pieces[|pieces| - 1]|;
        pieces := pieces[..|pieces| - 1];
      }
      var labelled := LabelPieces(pieces, at);
      r := Ok(Chunk(labelled, delta));
    }

    /** The loop of read that gives every piece its offset. */
    static method LabelPieces(pieces: seq<string>, at: nat) returns (labelled: seq<Line>)
      ensures labelled == Label(pieces, at)
    {
      labelled := [];
      var accumulator := 0;
      for i := 0 to |pieces|
        invariant labelled + Label(pieces[i..], at + accumulator) == Label(pieces, at)
      {
        var line := Line(pieces[i], at + accumulator, |pieces[i]|);
        LabelNext(pieces, i, at + accumulator);
        Regroup(labelled, [line], Label(pieces[i + 1..], at + accumulator + |pieces[i]| + 1));
        labelled := labelled + [line];
        accumulator := accumulator + |pieces[i]| + 1;
      }
      assert labelled + Label(pieces[|pieces|..], at + accumulator) == labelled;
    }

    /** The loop of Read that buffers a chunk and adds up the bytes of its lines. */
    method BufferAll(fetched: seq<Line>) returns (linesLen: nat)
      requires lines == []
      modifies this`lines
      ensures lines == Rev(NonBlank(fetched)) && linesLen == LinesLen(fetched)
    {
      linesLen := 0;
      for i := 0 to |fetched|
        invariant lines == Rev(NonBlank(fetched[..i])) && linesLen == LinesLen(fetched[..i])
      {
        assert fetched[..i + 1] == fetched[..i] + [fetched[i]];
        NonBlankConcat(fetched[..i], [fetched[i]]);
        LinesLenConcat(fetched[..i], [fetched[i]]);
        RevConcat(NonBlank(fetched[..i]), NonBlank([fetched[i]]));
        Prepend(fetched[i]);
        linesLen := linesLen + |fetched[i].message| + 1;
      }
      assert fetched[..|fetched|] == fetched;
    }

    /** The body of Read when its buffer is empty. */
    method FillBuffer(server: Server) returns (err: Option<ReadError>)
      requires Valid() && lines == []
      modifies this`lines, this`offset
      ensures Valid()
      ensures match Stock(old(Reached()), server)
        case Err(e) => err == Some(e) && Reached() == old(Reached())
        case Ok(p) => err == None && Reached() == p
    {
      var r := FetchChunk(server, offset, CHUNK_SIZE, false);
      if r.Err? {
        return Some(r.error);
      }
      var Chunk(fetched, delta) := r.value;
      if |fetched| > 0 {
        var linesLen := BufferAll(fetched);
        if linesLen < CHUNK_SIZE {
          offset := offset + linesLen - 1;
        } else {
          offset := (offset + CHUNK_SIZE) - delta - 1;
        }
        assert lines == Rev(NonBlank(fetched)) + [];
      }
      err := None;
    }

    /** Lines to pop, from the server if the buffer is empty. */
    method Restock(server: Server) returns (err: Option<ReadError>)
      requires Valid()
      modifies this`lines, this`offset
      ensures Valid()
      ensures match Stock(old(Reached()), server)
        case Err(e) => err == Some(e) && Reached() == old(Reached())
        case Ok(p) => err == None && Reached() == p
    {
      err := None;
      if |lines| == 0 {
        err := FillBuffer(server);
      }
    }

    /** The end of Read: pop a line, and count it as skipped or as read. */
    method Take() returns (outcome: Outcome)
      requires Valid()
      modifies this`lines, this`skipped, this`readLines
      ensures Valid()
      ensures (Reached(), outcome) == TakeLine(old(Configured()), old(Reached()))
    {
      ghost var before := lines;
      var line := Pop();
      if line == None {
        return Stopped(NoData);
      }
      assert lines == before[..|before| - 1];
      if skip > 0 && skipped < skip {
        skipped := skipped + 1;
        return Skipped(line.value);
      }
      readLines := readLines + 1;
      return Delivered(line.value);
    }

    /** One pass of Read from its start label. */
    method Pass(server: Server) returns (outcome: Outcome)
      requires Valid()
      modifies this`lines, this`offset, this`skipped, this`readLines
      ensures Valid()
      ensures (Reached(), outcome) == Turn(old(Configured()), old(Reached()), server)
    {
      if !stream && readLimit > 0 && readLines == readLimit {
        return Stopped(EOF);
      }
      var err := Restock(server);
      if err.Some? {
        return Stopped(err.value);
      }
      outcome := Take();
    }

    /** Read: hand out the next line that is not skipped, formatted, as far as it fits in the caller's buffer. */
    method Read(server: Server, bufLen: nat) returns (r: Result<string, ReadError>)
      requires Valid()
      modifies this`lines, this`offset, this`skipped, this`readLines
      ensures Valid()
      ensures var (p, outcome) := ReadLine(old(Configured()), old(Reached()), server);
        && Reached() == p
        && r == if outcome.Stopped? then Err(outcome.error) else Emit(format(outcome.line), bufLen)
      ensures server.Down? && old(lines) == [] && !LimitReached(old(Configured()), old(Reached())) ==>
        r == Err(Failed(server.outage)) && Reached() == old(Reached())
    {
      var outcome := Pass(server);
      while outcome.Skipped?
        invariant Valid()
        invariant outcome.Skipped? ==> skipped <= skip
        invariant ReadLine(old(Configured()), old(Reached()), server)
               == if outcome.Skipped? then ReadLine(Configured(), Reached(), server) else (Reached(), outcome)
        decreases outcome.Skipped?, skip - skipped
      {
        outcome := Pass(server);
      }
      r := if outcome.Stopped? then Err(outcome.error) else Emit(format(outcome.line), bufLen);
    }

    /** The found branch of calcOffset: step back over the last lines until `want` of them are non-blank. */
    method StepBack(found: seq<Line>, want: nat)
      modifies this`offset
      ensures offset == old(offset) - Consumed(found, want)
    {
      var i, skippedLines := 0, 0;
      while skippedLines < want && i < |found|
        invariant 0 <= i <= |found|
        invariant offset - Consumed(found[i..], want - skippedLines) == old(offset) - Consumed(found, want)
        decreases |found| - i
      {
        if found[i].message != "" {
          skippedLines := skippedLines + 1;
        }
        offset := offset - (|found[i].message| + 1);
        i := i + 1;
      }
    }

    /** One trip through the loop of calcOffset. */
    method CalcOffsetRound(server: Server, at: nat, length: nat, foundLines: nat) returns (r: Round)
      requires length <= CHUNK_SIZE
      modifies this`offset
      ensures r == ScanRound(server, skip, at, length, old(offset), foundLines)
      ensures offset == match r case Settled(pos, _) => pos case Onward(next, _) => next
    {
      var response := FetchChunk(server, at, length, true);
      if response.Err? {
        return Settled(offset, Some(response.error));
      }
      r := JudgeChunk(response.value.lines, response.value.delta, at, foundLines);
    }

    /** What a round makes of the lines of its window. */
    method JudgeChunk(found: seq<Line>, delta: nat, at: nat, foundLines: nat) returns (r: Round)
      requires delta < CHUNK_SIZE
      modifies this`offset
      ensures r == Judge(Ok(Chunk(found, delta)), skip, at, old(offset), foundLines)
      ensures offset == match r case Settled(pos, _) => pos case Onward(next, _) => next
    {
      var want := skip;
      if want < 0 {
        want := skip * -1;
      }
      if foundLines + |found| >= want {
        StepBack(found, want);
        return Settled(offset, None);
      }
      offset := at - (CHUNK_SIZE - delta);
      if offset < 0 {
        offset := 0;
        return Settled(offset, None);
      }
      r := Onward(offset, foundLines + |found|);
    }

    /** calcOffset: scan windows backwards until enough lines are found or the top is reached. */
    method CalcOffset(server: Server, start: nat, startLength: nat) returns (err: Option<ReadError>)
      requires startLength <= CHUNK_SIZE
      modifies this`offset
      ensures (offset, err) == Scan(server, skip, start, startLength, old(offset), 0)
    {
      var foundLines: nat := 0;
      var at: nat, length: nat := start, startLength;
      while true
        invariant length <= CHUNK_SIZE
        invariant Scan(server, skip, at, length, offset, foundLines)
               == Scan(server, skip, start, startLength, old(offset), 0)
        decreases at
      {
        var round := CalcOffsetRound(server, at, length, foundLines);
        if round.Settled? {
          return round.err;
        }
        at, length, foundLines := round.next, CHUNK_SIZE, round.found;
      }
    }

    /** Start the backwards scan with the window that ends at the reader's offset. */
    method ScanBack(server: Server) returns (err: Option<ReadError>)
      requires offset >= 0
      modifies this`offset
      ensures (offset, err) == Scan(server, skip, Max(old(offset) - CHUNK_SIZE, 0),
                                    Min(old(offset), CHUNK_SIZE), old(offset), 0)
    {
      var start: nat, length: nat := 0, offset;
      if offset > CHUNK_SIZE {
        start, length := offset - CHUNK_SIZE, CHUNK_SIZE;
      }
      assert start == Max(offset - CHUNK_SIZE, 0) && length == Min(offset, CHUNK_SIZE);
      err := CalcOffset(server, start, length);
    }

    /** The offset set-up at the end of NewLineReader. */
    method SetUpOffset(server: Server) returns (err: Option<ReadError>)
      requires Valid()
      modifies this`offset
      ensures match StartOffset(Config(Configured(), bottomToTop, old(offset)), server)
        case Err(e) => err == Some(e)
        case Ok(start) => err == None && offset == start
    {
      if bottomToTop && skip != 0 {
        err := ScanBack(server);
        if err.Some? && err.value != EOF {
          return;
        }
      }
      if offset < 0 {
        offset := 0;
      }
      err := None;
    }

    /** Apply one functional option. */
    method Apply(opt: Opt, server: Server) returns (err: Option<OpenError>)
      requires Valid()
      modifies this
      ensures Valid()
      ensures lines == old(lines) && skipped == old(skipped) && readLines == old(readLines)
      ensures match ApplyOpt(Config(old(Configured()), old(bottomToTop), old(offset)), opt, server)
        case Ok(c) => err == None && Config(Configured(), bottomToTop, offset) == c
        case Err(e) => err == Some(e)
    {
      err := None;
      match opt
      case OptLines(n) => readLimit := n;
      case OptSkip(n) => skip := n;
      case OptReadDirection(b) => bottomToTop := b;
      case OptStream(b) => stream := b;
      case OptOffset(n) =>
        if n < 0 {
          return Some(InvalidOffset(n));
        }
        offset := n;
      case OptReadFromEnd =>
        if server.Down? {
          return Some(Unavailable(Failed(server.outage)));
        }
        offset := |server.file|;
    }
  }

  method NewLineReader(server: Server, format: Line -> string, opts: seq<Opt>)
    returns (r: Result<ReadManager, OpenError>)
    ensures match Open(opts, server)
      case Err(e) => r == Err(e)
      case Ok((settings, progress)) =>
        && r.Ok? && fresh(r.value) && r.value.Valid() && r.value.format == format
        && r.value.Configured() == settings && r.value.Reached() == progress
  {
    var rm := new ReadManager(format);
    ApplyOptsOffset(DEFAULTS, opts, server);
    for i := 0 to |opts|
      invariant rm.Valid() && rm.lines == [] && rm.skipped == 0 && rm.readLines == 0
      invariant ApplyOpts(Config(rm.Configured(), rm.bottomToTop, rm.offset), opts[i..], server)
             == ApplyOpts(DEFAULTS, opts, server)
    {
      var err := rm.Apply(opts[i], server);
      if err.Some? {
        return Err(err.value);
      }
    }
    var err := rm.SetUpOffset(server);
    r := if err.Some? then Err(Unavailable(err.value)) else Ok(rm);
  }
}
