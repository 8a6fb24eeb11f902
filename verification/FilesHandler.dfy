/** The v2 handler for task logs (api/v2/handlers.go): request parameters, the two output formats
    (mesos/files/reader/format.go), and the copy loop. */
module FilesHandler {
  import opened Prelude
  import opened Text
  import opened Lines
  import opened FilesReader
  import opened WholeRun
  import opened Decimal

  /** The parts of a request the reader depends on; an absent one is "". */
  datatype Request = Request(lastEventId: string, cursor: string, skip: string, limit: string)

  datatype BadRequest = NotAnInteger(what: string)

  type ParamResult = Result<seq<Opt>, BadRequest>

  function OptLimit(s: string): ParamResult {
    if s == "" then Ok([])
    else match Atoi(s) case Malformed => Err(NotAnInteger(s)) case Number(n) => Ok([OptLines(n)])
  }

  function OptCursor(s: string): ParamResult {
    if s == "" then Ok([])
    else if s == "BEG" then Ok([OptOffset(0)])
    else if s == "END" then Ok([OptReadFromEnd])
    else match Atoi(s) case Malformed => Err(NotAnInteger(s)) case Number(n) => Ok([OptOffset(n)])
  }

  function OptSkipLines(s: string): ParamResult {
    if s == "" then Ok([])
    else
      match Atoi(s)
      case Malformed => Err(NotAnInteger(s))
      case Number(n) =>
        Ok((if n != 0 then [OptSkip(n)] else []) + (if n < 0 then [OptReadDirection(true)] else []))
  }

  /** Parameters in the order they are applied; the first that is malformed is the error. */
  function Collect(params: seq<(string -> ParamResult, string)>): ParamResult
    decreases |params|
  {
    if params == [] then Ok([])
    else
      match params[0].0(params[0].1)
      case Err(e) => Err(e)
      case Ok(opts) =>
        match Collect(params[1..])
        case Err(e) => Err(e)
        case Ok(rest) => Ok(opts + rest)
  }

  function Params(req: Request): seq<(string -> ParamResult, string)> {
    [(OptCursor, req.cursor), (OptSkipLines, req.skip), (OptLimit, req.limit)]
  }

  /** buildOpts: a Last-Event-ID overrides every other parameter. */
  function Requested(req: Request): ParamResult {
    if req.lastEventId != "" then
      match Atoi(req.lastEventId)
      case Malformed => Err(NotAnInteger(req.lastEventId))
      case Number(n) => Ok([OptOffset(n)])
    else Collect(Params(req))
  }

  lemma CollectThree(req: Request, a: seq<Opt>, b: seq<Opt>, c: seq<Opt>)
    requires req.lastEventId == ""
    requires OptCursor(req.cursor) == Ok(a) && OptSkipLines(req.skip) == Ok(b) && OptLimit(req.limit) == Ok(c)
    ensures Requested(req) == Ok(a + b + c)
  {
    var none: seq<(string -> ParamResult, string)> := [];
    CollectFirst(OptLimit, req.limit, c, none, []);
    CollectFirst(OptSkipLines, req.skip, b, [(OptLimit, req.limit)] + none, c + []);
    CollectFirst(OptCursor, req.cursor, a, [(OptSkipLines, req.skip)] + ([(OptLimit, req.limit)] + none), b + (c + []));
    assert Params(req) == [(OptCursor, req.cursor)] + ([(OptSkipLines, req.skip)] + ([(OptLimit, req.limit)] + none));
    assert c + [] == c;
    Regroup(a, b, c);
  }

  lemma {:induction false} CollectFirst(f: string -> ParamResult, s: string, opts: seq<Opt>,
                     params: seq<(string -> ParamResult, string)>, rest: seq<Opt>)
    requires f(s) == Ok(opts) && Collect(params) == Ok(rest)
    ensures Collect([(f, s)] + params) == Ok(opts + rest)
  {
    assert ([(f, s)] + params)[1..] == params;
  }

  method BuildOpts(req: Request) returns (r: ParamResult)
    ensures r == Requested(req)
  {
    if req.lastEventId != "" {
      match Atoi(req.lastEventId)
      case Malformed => return Err(NotAnInteger(req.lastEventId));
      case Number(n) => return Ok([OptOffset(n)]);
    }
    var params := Params(req);
    var collected: seq<Opt> := [];
    assert params[0..] == params && forall rest: seq<Opt> :: collected + rest == rest;
    for i := 0 to |params|
      invariant Collect(params)
             == match Collect(params[i..]) case Err(e) => Err(e) case Ok(rest) => Ok(collected + rest)
    {
      var opts := params[i].0(params[i].1);
      if opts.Err? {
        return opts;
      }
      ghost var before := collected;
      collected := collected + opts.value;
      assert forall rest :: before + (opts.value + rest) == collected + rest;
    }
    assert collected + [] == collected;
    r := Ok(collected);
  }

  /** LineFormat. */
  function LineFormat(l: Line): string {
    l.message + "\n"
  }

  /** jsonifyLine's message, or the plain one when marshalling fails. */
  function Payload(marshal: string -> Option<string>, message: string): string {
    match marshal(message) case Some(json) => json case None => message
  }

  /** SSEFormat: lines at offset 0 carry no id. */
  function SSEFormat(marshal: string -> Option<string>, l: Line): string {
    (if l.offset > 0 && l.size > 0 then "id: " + Show(l.offset + l.size) + "\n" else "")
    + "data: " + Payload(marshal, l.message) + "\n\n"
  }

  /** A line and the size of the buffer it is read into. */
  datatype Part = Part(line: Line, room: nat)

  function LinesOf(parts: seq<Part>): seq<Line> {
    if parts == [] then [] else [parts[0].line] + LinesOf(parts[1..])
  }

  /** What a line leaves in its buffer; the rest of it is lost. */
  function Fitting(format: Line -> string, part: Part): string {
    format(part.line)[..Min(part.room, |format(part.line)|)]
  }

  function Output(format: Line -> string, parts: seq<Part>): string {
    if parts == [] then "" else Fitting(format, parts[0]) + Output(format, parts[1..])
  }

  function Formatted(format: Line -> string, ls: seq<Line>): string {
    if ls == [] then "" else format(ls[0]) + Formatted(format, ls[1..])
  }

  /** Every formatted line fits in its buffer. */
  ghost predicate Fits(format: Line -> string, parts: seq<Part>) {
    forall i :: 0 <= i < |parts| ==> |format(parts[i].line)| <= parts[i].room
  }

  /** A line longer than its buffer loses its end, so the output is the formatted lines if and only if each of
      them fits. */
  lemma {:induction false} OutputWholeIff(format: Line -> string, parts: seq<Part>)
    ensures |Output(format, parts)| <= |Formatted(format, LinesOf(parts))|
    ensures Fits(format, parts) ==> Output(format, parts) == Formatted(format, LinesOf(parts))
    ensures !Fits(format, parts) ==> |Output(format, parts)| < |Formatted(format, LinesOf(parts))|
  {
    if parts != [] {
      OutputWholeIff(format, parts[1..]);
      FitsFirst(format, parts);
      assert LinesOf(parts)[1..] == LinesOf(parts[1..]);
    }
  }

  lemma FitsFirst(format: Line -> string, parts: seq<Part>)
    requires parts != []
    ensures Fits(format, parts) <==> |format(parts[0].line)| <= parts[0].room && Fits(format, parts[1..])
  {
    assert forall i :: 1 <= i < |parts| ==> parts[i] == parts[1..][i - 1];
    assert forall i :: 0 <= i < |parts[1..]| ==> parts[1..][i] == parts[i + 1];
  }

  lemma {:induction false} OutputConcat(format: Line -> string, a: seq<Part>, b: seq<Part>)
    ensures Output(format, a + b) == Output(format, a) + Output(format, b)
  {
    if a == [] {
      assert a + b == b;
    } else {
      assert (a + b)[0] == a[0] && (a + b)[1..] == a[1..] + b;
      OutputConcat(format, a[1..], b);
      Regroup(Fitting(format, a[0]), Output(format, a[1..]), Output(format, b));
    }
  }

  /** One read of the copy loop: what it meets, and the size of its buffer. */
  datatype Call = Call(server: Server, room: nat)

  /** The lines copied, the reader afterwards, and the error that ended the copy, if one did: EOF, or a failure. */
  datatype Copy = Copy(parts: seq<Part>, p: Progress, end: Option<ReadError>)

  /** The loop of filesAPIHandler for these reads: on after a line or ErrNoData, over after any other error. */
  function CopyAll(cfg: Settings, p: Progress, calls: seq<Call>): Copy
    decreases |calls|
  {
    if calls == [] then Copy([], p, None)
    else
      match ReadLine(cfg, p, calls[0].server)
      case (q, Delivered(l)) => Copying([Part(l, calls[0].room)], CopyAll(cfg, q, calls[1..]))
      case (q, Stopped(e)) => if e == NoData then Copying([], CopyAll(cfg, q, calls[1..])) else Copy([], q, Some(e))
  }

  /** A copy with lines that came before it. */
  function Copying(done: seq<Part>, c: Copy): Copy {
    Copy(done + c.parts, c.p, c.end)
  }

  lemma CopyingCopying(a: seq<Part>, b: seq<Part>, c: Copy)
    ensures Copying(a, Copying(b, c)) == Copying(a + b, c)
  {
    Regroup(a, b, c.parts);
  }

  /** Reads of a file at rest, into buffers of these sizes. */
  function AtRest(file: string, lens: seq<nat>): seq<Call> {
    seq(|lens|, i requires 0 <= i < |lens| => Call(Up(file), lens[i]))
  }

  /** Over a file at rest the loop copies the lines of the specified run, and ends with EOF when that is finished. */
  lemma {:induction false} CopyServes(cfg: Settings, p: Progress, file: string, lens: seq<nat>)
    ensures var c, r := CopyAll(cfg, p, AtRest(file, lens)), Serve(cfg, p, file, |lens|);
      LinesOf(c.parts) == r.delivered && c.p == r.p && c.end.Some? == r.finished
    decreases |lens|
  {
    if lens != [] {
      var read, more := ReadLine(cfg, p, Up(file)), AtRest(file, lens[1..]);
      assert AtRest(file, lens) == [Call(Up(file), lens[0])] + more;
      CopyServes(cfg, read.0, file, lens[1..]);
      ServeStep(cfg, p, file, |lens|, read.0, read.1);
      CopyFirst(cfg, p, Call(Up(file), lens[0]), more, read.0, read.1);
      LinesOfMore(if read.1.Delivered? then [Part(read.1.line, lens[0])] else [], CopyAll(cfg, read.0, more));
    }
  }

  lemma {:induction false} CopyFirst(cfg: Settings, p: Progress, call: Call, more: seq<Call>, q: Progress,
                                     outcome: Outcome)
    requires ReadLine(cfg, p, call.server) == (q, outcome)
    ensures CopyAll(cfg, p, [call] + more)
         == if outcome.Delivered? then Copying([Part(outcome.line, call.room)], CopyAll(cfg, q, more))
            else if outcome.error == NoData then Copying([], CopyAll(cfg, q, more))
            else Copy([], q, Some(outcome.error))
  {
    assert ([call] + more)[1..] == more;
  }

  lemma {:induction false} LinesOfMore(done: seq<Part>, c: Copy)
    requires |done| <= 1
    ensures LinesOf(Copying(done, c).parts) == LinesOf(done) + LinesOf(c.parts)
  {
    if done == [] {
      assert [] + c.parts == c.parts;
    } else {
      assert (done + c.parts)[1..] == c.parts && LinesOf(done[1..]) == [];
    }
  }

  lemma OutputOne(format: Line -> string, part: Part)
    requires format(part.line) != ""
    ensures Emit(format(part.line), part.room) == Ok(Output(format, [part]))
  {
    assert [part][1..] == [];
    assert Fitting(format, part) + "" == Fitting(format, part);
  }

  /** One read of the copy loop. */
  method CopyOnce(rm: ReadManager, call: Call) returns (bytes: string, end: Option<ReadError>, ghost got: seq<Part>)
    requires rm.Valid() && forall l :: rm.format(l) != ""
    modifies rm
    ensures rm.Valid() && rm.Configured() == old(rm.Configured()) && bytes == Output(rm.format, got)
    ensures match ReadLine(old(rm.Configured()), old(rm.Reached()), call.server)
      case (q, Delivered(l)) => rm.Reached() == q && end == None && got == [Part(l, call.room)]
      case (q, Stopped(e)) => rm.Reached() == q && end == (if e == NoData then None else Some(e)) && got == []
  {
    ghost var line := ReadLine(rm.Configured(), rm.Reached(), call.server).1;
    var r := rm.Read(call.server, call.room);
    match r
    case Ok(out) =>
      bytes, end, got := out, None, [Part(line.line, call.room)];
      OutputOne(rm.format, Part(line.line, call.room));
    case Err(NoData) =>
      bytes, end, got := "", None, [];
    case Err(e) =>
      bytes, end, got := "", Some(e), [];
  }

  /** The non-stream branch of filesAPIHandler, for as many reads as the client stays: each may find the file grown or
      the files API failing, and has a buffer of its own size. Both formats write at least one byte for every line. */
  method ServeFile(rm: ReadManager, calls: seq<Call>) returns (out: string, end: Option<ReadError>)
    requires rm.Valid() && forall l :: rm.format(l) != ""
    modifies rm
    ensures rm.Valid()
    ensures var c := CopyAll(old(rm.Configured()), old(rm.Reached()), calls);
      out == Output(rm.format, c.parts) && end == c.end && rm.Reached() == c.p
  {
    ghost var all, done := CopyAll(rm.Configured(), rm.Reached(), calls), [];
    out, end := "", None;
    assert Copying([], all) == all && calls[0..] == calls;
    for i := 0 to |calls|
      invariant rm.Valid() && out == Output(rm.format, done)
      invariant all == Copying(done, CopyAll(rm.Configured(), rm.Reached(), calls[i..]))
    {
      ghost var rest := CopyAll(rm.Configured(), rm.Reached(), calls[i..]);
      assert calls[i..][0] == calls[i] && calls[i..][1..] == calls[i + 1..];
      var bytes, err, got := CopyOnce(rm, calls[i]);
      if err.Some? {
        assert done + [] == done;
        return out, err;
      }
      assert rest == Copying(got, CopyAll(rm.Configured(), rm.Reached(), calls[i + 1..]));
      OutputConcat(rm.format, done, got);
      CopyingCopying(done, got, CopyAll(rm.Configured(), rm.Reached(), calls[i + 1..]));
      done := done + got;
      out := out + bytes;
    }
    assert done + [] == done;
  }

  /** The line that ends at `i`, in a stretch that starts at `lo`, is blank. */
  predicate BlankAt(file: string, lo: nat, i: nat)
    requires lo <= i < |file|
  {
    file[i] == NL && (i == lo || file[i - 1] == NL)
  }

  predicate NoBlankLine(file: string, lo: nat, hi: nat)
    requires lo <= hi <= |file|
  {
    forall i :: lo <= i < hi ==> !BlankAt(file, lo, i)
  }

  /** The first line of a stretch is blank, or some later one is. */
  lemma BlankAfter(file: string, lo: nat, m: nat, hi: nat)
    requires lo <= m < hi <= |file| && file[m] == NL && NL !in file[lo..m]
    ensures NoBlankLine(file, lo, hi) <==> lo < m && NoBlankLine(file, m + 1, hi)
  {
    if lo < m {
      NoNewlineAt(file, lo, m, m - 1);
      if NoBlankLine(file, m + 1, hi) {
        forall i | lo <= i < hi ensures !BlankAt(file, lo, i) {
          if i < m {
            NoNewlineAt(file, lo, m, i);
          } else if i > m {
            assert !BlankAt(file, m + 1, i);
          }
        }
      } else {
        var i :| m + 1 <= i < hi && BlankAt(file, m + 1, i);
        assert BlankAt(file, lo, i);
      }
    } else {
      assert BlankAt(file, lo, m);
    }
  }

  /** Printing lines one after the other gives back newline-terminated text if and only if no line in it is blank. */
  lemma {:induction false} EchoIff(file: string, lo: nat, hi: nat)
    requires lo <= hi <= |file| && (lo < hi ==> file[hi - 1] == NL)
    ensures |Formatted(LineFormat, LinesIn(file, lo, hi))| <= hi - lo
    ensures Formatted(LineFormat, LinesIn(file, lo, hi)) == file[lo..hi] <==> NoBlankLine(file, lo, hi)
    decreases hi - lo
  {
    if lo == hi {
      LinesInEmpty(file, lo);
    } else {
      assert file[lo..hi][hi - 1 - lo] == NL;
      var m := NextNewline(file, lo, hi);
      EchoIff(file, m + 1, hi);
      BlankAfter(file, lo, m, hi);
      EchoFirst(file, lo, m, hi);
    }
  }

  lemma EchoFirst(file: string, lo: nat, m: nat, hi: nat)
    requires lo <= m < hi <= |file| && file[m] == NL && NL !in file[lo..m]
    requires |Formatted(LineFormat, LinesIn(file, m + 1, hi))| <= hi - m - 1
    ensures var out := Formatted(LineFormat, LinesIn(file, lo, hi));
      var rest := Formatted(LineFormat, LinesIn(file, m + 1, hi));
      |out| <= hi - lo && (out == file[lo..hi] <==> lo < m && rest == file[m + 1..hi])
  {
    LinesSplit(file, lo, m, hi);
    var ls := LinesIn(file, m + 1, hi);
    if lo == m {
      LinesInEmpty(file, lo);
      assert [] + ls == ls;
    } else {
      LinesInRun(file, lo, m);
      var l := Line(file[lo..m], lo, m - lo);
      assert ([l] + ls)[1..] == ls;
      assert file[lo..hi] == LineFormat(l) + file[m + 1..hi];
      Cancel(LineFormat(l), Formatted(LineFormat, ls), file[m + 1..hi]);
    }
  }

  /** A run with default parameters in the text format gives back the file, byte for byte, if and only if
      the file has no blank line and every line fits in the buffer it is read into, with its newline. */
  lemma DefaultRunEchoes(file: string, lens: seq<nat>)
    requires Readable(file, 0) && (file != "" ==> file[|file| - 1] == NL) && |lens| > 2 * |file|
    ensures var c := CopyAll(DEFAULTS.settings, Progress(0, [], 0, 0), AtRest(file, lens));
      && c.end.Some? && LinesOf(c.parts) == LinesFrom(file, 0)
      && (Output(LineFormat, c.parts) == file <==> NoBlankLine(file, 0, |file|) && Fits(LineFormat, c.parts))
  {
    var cfg, p := DEFAULTS.settings, Progress(0, [], 0, 0);
    WholeRunExact(cfg, file, 0, |lens|);
    CopyServes(cfg, p, file, lens);
    OutputWholeIff(LineFormat, CopyAll(cfg, p, AtRest(file, lens)).parts);
    EchoIff(file, 0, |file|);
    assert file[0..|file|] == file;
  }

  lemma Cancel(a: string, b: string, c: string)
    ensures a + b == a + c <==> b == c
  {
    assert (a + b)[|a|..] == b && (a + c)[|a|..] == c;
  }
}
