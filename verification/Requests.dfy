/** From the parameters of a request to the lines it delivers: reader set-up and whole run together. */
module Requests {
  import opened Prelude
  import opened Lines
  import opened FilesReader
  import opened WholeRun
  import opened TailN
  import opened TailRegular
  import opened TailRuns
  import opened Decimal
  import opened FilesHandler

  /** The reader a text request gets. */
  function Prepare(req: Request, server: Server): Result<(Settings, Progress), OpenError> {
    match Requested(req)
    case Err(_) => Err(Unavailable(Failed(BadResponse)))
    case Ok(opts) => Open(opts, server)
  }

  predicate IntegerOrNone(s: string) {
    s == "" || Atoi(s).Number?
  }

  predicate CursorOrNone(s: string) {
    s == "BEG" || s == "END" || IntegerOrNone(s)
  }

  function Offender(req: Request): string {
    if req.lastEventId != "" then req.lastEventId
    else if !CursorOrNone(req.cursor) then req.cursor
    else if !IntegerOrNone(req.skip) then req.skip
    else req.limit
  }

  /** Which requests are well formed: with a Last-Event-ID only that counts; otherwise each parameter is absent, an
      integer, or, for the cursor, BEG or END. The error of others names the first parameter that is not. */
  lemma RequestedIff(req: Request)
    ensures Requested(req).Ok?
      <==> if req.lastEventId != "" then Atoi(req.lastEventId).Number?
           else CursorOrNone(req.cursor) && IntegerOrNone(req.skip) && IntegerOrNone(req.limit)
    ensures Requested(req).Err? ==> Requested(req).error == NotAnInteger(Offender(req))
  {
    var params := Params(req);
    var two := params[1..];
    var one := two[1..];
    assert two[0] == params[1] && one[0] == params[2] && |one| == 1;
    assert if IntegerOrNone(req.limit) then Collect(one).Ok? else Collect(one) == Err(NotAnInteger(req.limit));
    assert if !IntegerOrNone(req.skip) then Collect(two) == Err(NotAnInteger(req.skip))
           else if IntegerOrNone(req.limit) then Collect(two).Ok? else Collect(two) == Err(NotAnInteger(req.limit));
  }

  /** A negative offset is refused, whether it comes as the cursor or as the Last-Event-ID. */
  lemma NegativeIsRefused(req: Request, n: int, server: Server)
    requires n < 0 && Requested(req).Ok?
    requires if req.lastEventId != "" then Atoi(req.lastEventId) == Number(n)
             else Atoi(req.cursor) == Number(n) && req.cursor != "" && req.cursor != "BEG" && req.cursor != "END"
    ensures Prepare(req, server) == Err(InvalidOffset(n))
  {
    var opts := Requested(req).value;
    assert opts != [] && opts[0] == OptOffset(n);
  }

  /** A request for the lines from an offset, with a skip and a limit. */
  function ForwardRequest(o: nat, skip: nat, limit: nat): Request {
    Request("", Show(o), Show(skip), Show(limit))
  }

  /** A request for the last n lines: cursor=END and a negative skip. */
  function TailRequest(n: nat): Request {
    Request("", "END", "-" + Show(n), "")
  }

  lemma {:induction false} ApplyFirst(c: Config, opt: Opt, rest: seq<Opt>, d: Config, server: Server)
    requires ApplyOpt(c, opt, server) == Ok(d)
    ensures ApplyOpts(c, [opt] + rest, server) == ApplyOpts(d, rest, server)
  {
    assert ([opt] + rest)[1..] == rest;
  }

  lemma ForwardPrepares(o: nat, skip: nat, limit: nat, server: Server)
    requires o <= MAX_INT && skip <= MAX_INT && limit <= MAX_INT
    ensures Prepare(ForwardRequest(o, skip, limit), server)
         == Ok((Settings(skip, limit, false), Progress(o, [], 0, 0)))
  {
    AtoiShow(o);
    AtoiShow(skip);
    AtoiShow(limit);
    ShowIsNoName(o);
    ShowIsNoName(skip);
    ShowIsNoName(limit);
    var skips: seq<Opt> := if skip != 0 then [OptSkip(skip)] else [];
    assert skips + [] == skips;
    CollectThree(ForwardRequest(o, skip, limit), [OptOffset(o)], skips, [OptLines(limit)]);
    ForwardOpens(o, skip, limit, server, skips);
  }

  lemma ForwardOpens(o: nat, skip: nat, limit: nat, server: Server, skips: seq<Opt>)
    requires skips == if skip != 0 then [OptSkip(skip)] else []
    ensures Open([OptOffset(o)] + skips + [OptLines(limit)], server)
         == Ok((Settings(skip, limit, false), Progress(o, [], 0, 0)))
  {
    var at, last := DEFAULTS.(offset := o), Config(Settings(skip, 0, false), false, o);
    var lines := [OptLines(limit)];
    Regroup([OptOffset(o)], skips, lines);
    ApplyFirst(DEFAULTS, OptOffset(o), skips + lines, at, server);
    if skip != 0 {
      ApplyFirst(at, OptSkip(skip), lines, last, server);
    } else {
      assert skips + lines == lines;
    }
    assert lines == lines + [];
    ApplyFirst(last, OptLines(limit), [], last.(settings := Settings(skip, limit, false)), server);
  }

  /** The options of a tail request. */
  function TailOptions(n: int): seq<Opt> {
    [OptReadFromEnd, OptSkip(-n), OptReadDirection(true)]
  }

  lemma TailRequested(n: int)
    requires 0 < n <= MAX_INT
    ensures Requested(TailRequest(n)) == Ok(TailOptions(n))
  {
    AtoiNegative(n);
    var skips := [OptSkip(-n), OptReadDirection(true)];
    assert [OptSkip(-n)] + [OptReadDirection(true)] == skips;
    CollectThree(TailRequest(n), [OptReadFromEnd], skips, []);
    assert [OptReadFromEnd] + skips + [] == TailOptions(n);
  }

  lemma TailOpens(n: int, file: string)
    requires n > 0
    ensures Open(TailOptions(n), Up(file))
         == Ok((Settings(-n, 0, false), Progress(TailStart(file, |file|, -n), [], 0, 0)))
  {
    var end, skipping := DEFAULTS.(offset := |file|), Config(Settings(-n, 0, false), false, |file|);
    var upwards := [OptReadDirection(true)];
    assert TailOptions(n) == [OptReadFromEnd] + ([OptSkip(-n)] + upwards) && upwards == upwards + [];
    ApplyFirst(DEFAULTS, OptReadFromEnd, [OptSkip(-n)] + upwards, end, Up(file));
    ApplyFirst(end, OptSkip(-n), upwards, skipping, Up(file));
    ApplyFirst(skipping, OptReadDirection(true), [], TailConfig(-n, |file|), Up(file));
    StartInRange(TailConfig(-n, |file|), Up(file));
  }

  lemma TailPrepares(n: int, file: string)
    requires 0 < n <= MAX_INT
    ensures Prepare(TailRequest(n), Up(file))
         == Ok((Settings(-n, 0, false), Progress(TailStart(file, |file|, -n), [], 0, 0)))
  {
    TailRequested(n);
    TailOpens(n, file);
  }

  /** A request for `limit` lines after the first `skip` from offset o (limit 0 for all) delivers exactly these,
      on every file readable from there. */
  lemma ForwardRequestDelivers(o: nat, skip: nat, limit: nat, file: string, rounds: nat)
    requires o <= MAX_INT && skip <= MAX_INT && limit <= MAX_INT
    requires Readable(file, o) && rounds > 2 * |file|
    ensures Prepare(ForwardRequest(o, skip, limit), Up(file)).Ok?
    ensures var (cfg, p) := Prepare(ForwardRequest(o, skip, limit), Up(file)).value;
      var r, all := Serve(cfg, p, file, rounds), LinesFrom(file, o);
      var rest := all[Min(skip, |all|)..];
      r.finished && r.delivered == if limit == 0 then rest else rest[..Min(limit, |rest|)]
  {
    ForwardPrepares(o, skip, limit, Up(file));
    WholeRunExact(Settings(skip, limit, false), file, o, rounds);
  }

  /** Some number of reads answers a request with exactly these lines. */
  ghost predicate Answered(req: Request, file: string, right: seq<Line>) {
    Prepare(req, Up(file)).Ok? && exists rounds :: Gives(Prepare(req, Up(file)).value, file, rounds, right)
  }

  ghost predicate Gives(reader: (Settings, Progress), file: string, rounds: nat, right: seq<Line>) {
    var r := Serve(reader.0, reader.1, file, rounds);
    r.finished && r.delivered == right
  }

  /** A request for the last n lines is answered with exactly these if and only if the file is one of those told by
      TailSucceeds: at most one window long, longer with a last window that settles the scan, has no newline or is
      followed by the top, or regular. */
  lemma TailRequestDelivers(n: int, file: string, m: nat)
    requires 0 < n <= MAX_INT && (|file| <= CHUNK_SIZE || LongLast(file) || FirstOfWindow(file, |file|, m))
    requires |file| <= CHUNK_SIZE || LongLast(file) || m < CHUNK_SIZE || n <= Pieces(file, m + 1, |file|)
          || Regular(file, |file|)
    ensures Answered(TailRequest(n), file, LastN(LinesFrom(file, 0), n)) <==> TailSucceeds(file, n, m)
  {
    TailPrepares(n, file);
    TailRunIff(file, n, m);
    var reader, right := Prepare(TailRequest(n), Up(file)).value, LastN(LinesFrom(file, 0), n);
    forall rounds: nat
      ensures Gives(reader, file, rounds, right)
        <==> TailRun(file, n, rounds).finished && TailRun(file, n, rounds).delivered == right
    {
    }
  }
}
