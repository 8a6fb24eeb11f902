/** What a client is told when the files API fails, and when a copy may end as complete. */
module Outages {
  import opened Prelude
  import opened FilesReader
  import opened Refills
  import opened Decimal
  import opened FilesHandler
  import opened Requests

  /** A read with nothing buffered that meets a failing files API returns its failure and changes nothing. */
  lemma {:induction false} OutageIsReturned(cfg: Settings, p: Progress, outage: Outage)
    requires p.buffer == [] && !LimitReached(cfg, p)
    ensures ReadLine(cfg, p, Down(outage)) == (p, Stopped(Failed(outage)))
  {
  }

  /** Why a read ends a copy: at its limit, at the end of the file, or because the files API fails. The reader stands
      where its last request was made. */
  ghost predicate EndsRight(cfg: Settings, q: Progress, server: Server, error: ReadError) {
    && (error == EOF <==> LimitReached(cfg, q) || (server.Up? && AtEnd(server.file, q.offset)))
    && (forall outage :: error == Failed(outage) <==> !LimitReached(cfg, q) && server == Down(outage))
    && (LimitReached(cfg, q) || q.buffer == [])
  }

  lemma {:induction false} ReadEnds(cfg: Settings, p: Progress, server: Server)
    ensures var (q, outcome) := ReadLine(cfg, p, server);
      outcome.Stopped? && outcome.error != NoData ==> EndsRight(cfg, q, server, outcome.error)
    decreases Max(cfg.skip - p.skipped, 0)
  {
    var (q, outcome) := Turn(cfg, p, server);
    if outcome.Skipped? {
      ReadEnds(cfg, q, server);
    }
  }

  /** Data that brings no line is no failure, and a failure is no end: the retry loop goes on only while the API
      answers. */
  lemma {:induction false} RetryIsAnswered(cfg: Settings, p: Progress, server: Server)
    ensures ReadLine(cfg, p, server).1 == Stopped(NoData) ==> server.Up?
    decreases Max(cfg.skip - p.skipped, 0)
  {
    var (q, outcome) := Turn(cfg, p, server);
    if outcome.Skipped? {
      RetryIsAnswered(cfg, q, server);
    }
  }

  /** A copy ends as complete if and only if the read that ended it had reached its limit or stood at the end of the
      file it met, and with a failure if and only if that read met it; all reads before went on. */
  lemma {:induction false} CopyEndsIff(cfg: Settings, p: Progress, calls: seq<Call>) returns (last: nat)
    requires CopyAll(cfg, p, calls).end.Some?
    ensures last < |calls| && CopyAll(cfg, p, calls[..last]).end == None
    ensures var c := CopyAll(cfg, p, calls); EndsRight(cfg, c.p, calls[last].server, c.end.value)
    decreases |calls|
  {
    var call, more := calls[0], calls[1..];
    var (q, outcome) := ReadLine(cfg, p, call.server);
    assert calls == [call] + more;
    CopyFirst(cfg, p, call, more, q, outcome);
    last := 0;
    if outcome.Stopped? && outcome.error != NoData {
      ReadEnds(cfg, p, call.server);
    } else {
      last := CopyEndsIff(cfg, q, more);
      CopyFirst(cfg, p, call, more[..last], q, outcome);
      assert calls[..last + 1] == [call] + more[..last];
      last := last + 1;
    }
  }

  /** What a cursor parameter can ask for. */
  ghost predicate Starts(opts: seq<Opt>) {
    opts == [] || opts == [OptReadFromEnd] || exists n: nat :: opts == [OptOffset(n)]
  }

  lemma LimitIsOne(s: string)
    ensures OptLimit(s).Ok? ==> OptLimit(s) == Ok([]) || exists n :: OptLimit(s) == Ok([OptLines(n)])
  {
    if s != "" && Atoi(s).Number? {
      assert OptLimit(s) == Ok([OptLines(Atoi(s).n)]);
    }
  }

  /** A request for the last lines needs the files API before it can read, so a failure refuses it. */
  lemma TailIsRefused(req: Request, outage: Outage, n: int, start: seq<Opt>, lines: seq<Opt>)
    requires req.lastEventId == "" && n < 0 && Atoi(req.skip) == Number(n) && req.skip != ""
    requires OptCursor(req.cursor) == Ok(start) && Starts(start) && OptLimit(req.limit) == Ok(lines)
    ensures Prepare(req, Down(outage)) == Err(Unavailable(Failed(outage)))
  {
    var skips := [OptSkip(n), OptReadDirection(true)];
    assert [OptSkip(n)] + [OptReadDirection(true)] == skips;
    CollectThree(req, start, skips, lines);
    Regroup(start, skips, lines);
    LimitIsOne(req.limit);
    if start == [OptReadFromEnd] {
      assert (start + (skips + lines))[0] == OptReadFromEnd;
    } else {
      var o: nat := if start == [] then 0 else start[0].n;
      StartAt(start, skips + lines, o, outage);
      ScanIsRefused(DEFAULTS.(offset := o), n, lines, outage);
    }
  }

  lemma {:induction false} StartAt(start: seq<Opt>, rest: seq<Opt>, o: nat, outage: Outage)
    requires start == [OptOffset(o)] || (start == [] && o == 0)
    ensures ApplyOpts(DEFAULTS, start + rest, Down(outage)) == ApplyOpts(DEFAULTS.(offset := o), rest, Down(outage))
  {
    if start == [] {
      assert start + rest == rest && DEFAULTS.(offset := 0) == DEFAULTS;
    } else {
      ApplyFirst(DEFAULTS, OptOffset(o), rest, DEFAULTS.(offset := o), Down(outage));
    }
  }

  lemma {:induction false} ScanIsRefused(c: Config, n: int, lines: seq<Opt>, outage: Outage)
    requires n < 0 && c.offset >= 0 && (lines == [] || exists k :: lines == [OptLines(k)])
    ensures var r := ApplyOpts(c, [OptSkip(n), OptReadDirection(true)] + lines, Down(outage));
      && r.Ok? && r.value.offset == c.offset
      && StartOffset(r.value, Down(outage)) == Err(Failed(outage))
  {
    var server := Down(outage);
    var skipping := c.(settings := c.settings.(skip := n));
    var upwards := skipping.(bottomToTop := true);
    assert [OptSkip(n), OptReadDirection(true)] + lines == [OptSkip(n)] + ([OptReadDirection(true)] + lines);
    ApplyFirst(c, OptSkip(n), [OptReadDirection(true)] + lines, skipping, server);
    ApplyFirst(skipping, OptReadDirection(true), lines, upwards, server);
    if lines != [] {
      var k :| lines == [OptLines(k)];
      assert lines == [OptLines(k)] + [];
      ApplyFirst(upwards, OptLines(k), [], upwards.(settings := upwards.settings.(readLimit := k)), server);
    }
  }

  /** One that reads forward from a place it names is opened without the API; its first read returns the failure. */
  lemma {:induction false} ForwardOutage(o: nat, skip: nat, limit: nat, outage: Outage)
    requires o <= MAX_INT && skip <= MAX_INT && limit <= MAX_INT
    ensures var r := Prepare(ForwardRequest(o, skip, limit), Down(outage));
      r.Ok? && ReadLine(r.value.0, r.value.1, Down(outage)) == (r.value.1, Stopped(Failed(outage)))
  {
    ForwardPrepares(o, skip, limit, Down(outage));
    OutageIsReturned(Settings(skip, limit, false), Progress(o, [], 0, 0), outage);
  }
}
