/** Clients of the event stream that are cut off and come back with their last event ID. */
module Reconnect {
  import opened Prelude
  import opened Text
  import opened Lines
  import opened FilesReader
  import opened Refills
  import opened Runs
  import opened Tailing
  import opened Decimal
  import opened FilesHandler
  import opened Sending
  import Sse

  /** Opening the stream for a request. */
  function Connect(req: Request, server: Server): Result<(Settings, Progress), OpenError> {
    match Requested(req)
    case Err(_) => Err(Unavailable(Failed(BadResponse)))
    case Ok(opts) => Open(opts + [OptStream(true)], server)
  }

  /** How a stream reads: no limit, nothing skipped. */
  const STREAM := Settings(0, 0, true)

  /** With a Last-Event-ID the stream starts there, whatever the other parameters say. */
  lemma {:induction false} ConnectResumes(req: Request, q: nat, server: Server)
    requires q <= MAX_INT && req.lastEventId == Show(q)
    ensures Connect(req, server) == Ok((STREAM, Progress(q, [], 0, 0)))
  {
    AtoiShow(q);
    OpensAt(q, server);
  }

  lemma OpensAt(q: nat, server: Server)
    ensures Open([OptOffset(q)] + [OptStream(true)], server) == Ok((STREAM, Progress(q, [], 0, 0)))
  {
    var opts := [OptOffset(q)] + [OptStream(true)];
    assert opts[1..] == [OptStream(true)];
    var c := DEFAULTS.(offset := q);
    assert ApplyOpts(c, [OptStream(true)], server) == Ok(c.(settings := STREAM));
    assert ApplyOpts(DEFAULTS, opts, server) == ApplyOpts(c, [OptStream(true)], server);
  }

  /** A request for the stream from an offset. */
  function StreamRequest(o: nat): Request {
    Request("", Show(o), "", "")
  }

  /** A request that starts a stream at `o` whenever it is made without a Last-Event-ID. */
  ghost predicate StartsAt(req: Request, o: nat) {
    forall file: string :: Connect(req.(lastEventId := ""), Up(file)) == Ok((STREAM, Progress(o, [], 0, 0)))
  }

  lemma StreamStarts(o: nat)
    requires o <= MAX_INT
    ensures StartsAt(StreamRequest(o), o)
  {
    AtoiShow(o);
    ShowIsNoName(o);
    var req := StreamRequest(o);
    CollectCursor(req, [OptOffset(o)]);
    forall file: string ensures Connect(req.(lastEventId := ""), Up(file)) == Ok((STREAM, Progress(o, [], 0, 0))) {
      OpensAt(o, Up(file));
    }
  }

  lemma CollectCursor(req: Request, opts: seq<Opt>)
    requires req.lastEventId == "" && req.skip == "" && req.limit == "" && OptCursor(req.cursor) == Ok(opts)
    ensures Requested(req) == Ok(opts)
  {
    CollectThree(req, opts, [], []);
    assert opts + [] + [] == opts;
  }

  /** A request without parameters starts at the top, and so does cursor=BEG. */
  lemma PlainStarts()
    ensures StartsAt(Request("", "", "", ""), 0) && StartsAt(Request("", "BEG", "", ""), 0)
  {
    CollectCursor(Request("", "", "", ""), []);
    CollectCursor(Request("", "BEG", "", ""), [OptOffset(0)]);
    forall file: string
      ensures Open([] + [OptStream(true)], Up(file)) == Open([OptOffset(0)] + [OptStream(true)], Up(file))
              == Ok((STREAM, Progress(0, [], 0, 0)))
    {
      OpensAt(0, Up(file));
      assert [] + [OptStream(true)] == [OptStream(true)];
      assert [OptStream(true)][1..] == [];
    }
  }

  /** The file, what the client asked for at first, the lines whose events it has dispatched, and its parser. */
  datatype Link = Link(file: string, req: Request, got: seq<Line>, client: Sse.Client)

  /** What happens while a connection lasts, and the size of the buffer a line is read into that is delivered then. */
  datatype Moment = Moment(event: Event, room: nat)

  function EventsOf(moments: seq<Moment>): seq<Event> {
    if moments == [] then [] else [moments[0].event] + EventsOf(moments[1..])
  }

  /** The lines delivered, each with its buffer. */
  function Parts(cfg: Settings, w: World, moments: seq<Moment>): seq<Part>
    decreases |moments|
  {
    if moments == [] then []
    else PartAt(cfg, w, moments[0]) + Parts(cfg, Apply(cfg, w, moments[0].event), moments[1..])
  }

  function PartAt(cfg: Settings, w: World, m: Moment): seq<Part> {
    var v := Apply(cfg, w, m.event);
    if |v.delivered| > |w.delivered| then [Part(v.delivered[|w.delivered|], m.room)] else []
  }

  lemma ApplyDelivers(cfg: Settings, w: World, m: Moment)
    ensures Apply(cfg, w, m.event).delivered == w.delivered + LinesOf(PartAt(cfg, w, m))
  {
    var v, part := Apply(cfg, w, m.event), PartAt(cfg, w, m);
    assert v.delivered == w.delivered
        || (|v.delivered| == |w.delivered| + 1 && v.delivered[..|w.delivered|] == w.delivered);
    if part == [] {
      assert w.delivered + [] == w.delivered;
    } else {
      assert part[1..] == [];
    }
  }

  lemma {:induction false} PartsDelivered(cfg: Settings, w: World, moments: seq<Moment>)
    ensures Run(cfg, w, EventsOf(moments)).delivered == w.delivered + LinesOf(Parts(cfg, w, moments))
    decreases |moments|
  {
    if moments == [] {
      assert w.delivered + [] == w.delivered;
    } else {
      var v, rest := Apply(cfg, w, moments[0].event), moments[1..];
      assert EventsOf(moments)[1..] == EventsOf(rest);
      PartsDelivered(cfg, v, rest);
      ApplyDelivers(cfg, w, moments[0]);
      LinesOfConcat(PartAt(cfg, w, moments[0]), Parts(cfg, v, rest));
      Regroup(w.delivered, LinesOf(PartAt(cfg, w, moments[0])), LinesOf(Parts(cfg, v, rest)));
    }
  }

  lemma {:induction false} LinesOfConcat(a: seq<Part>, b: seq<Part>)
    ensures LinesOf(a + b) == LinesOf(a) + LinesOf(b)
  {
    if a == [] {
      assert a + b == b;
    } else {
      assert (a + b)[1..] == a[1..] + b;
      LinesOfConcat(a[1..], b);
    }
  }

  /** A connection: its moments, and how many of the bytes sent reach the client. */
  datatype Visit = Visit(moments: seq<Moment>, received: nat)

  /** The lines a connection delivers, and how many bytes of their events reach the client. */
  function Conveyed(marshal: Marshal, cfg: Settings, w: World, v: Visit): (r: (seq<Part>, nat))
    ensures r.1 <= |Sent(marshal, r.0)|
  {
    var parts := Parts(cfg, w, v.moments);
    (parts, Min(v.received, |Sent(marshal, parts)|))
  }

  /** A connection. The client has got the lines up to the last one whose event it dispatched. */
  function Session(marshal: Marshal, link: Link, v: Visit): Link {
    match Connect(link.req.(lastEventId := link.client.lastId), Up(link.file))
    case Err(_) => link
    case Ok((cfg, p)) =>
      var w := World(link.file, p, [], []);
      var (parts, n) := Conveyed(marshal, cfg, w, v);
      Link(Run(cfg, w, EventsOf(v.moments)).file, link.req, link.got + LinesOf(parts[..Landed(marshal, parts, n)]),
           Listen(marshal, link.client, parts, n))
  }

  /** No event that its buffer cut off was followed by one that reached the client whole. */
  ghost predicate Clean(marshal: Marshal, link: Link, v: Visit) {
    match Connect(link.req.(lastEventId := link.client.lastId), Up(link.file))
    case Err(_) => true
    case Ok((cfg, p)) =>
      var (parts, n) := Conveyed(marshal, cfg, World(link.file, p, [], []), v);
      Fits(AsEvent(marshal), parts[..Landed(marshal, parts, n)])
  }

  function Sessions(marshal: Marshal, link: Link, visits: seq<Visit>): Link
    decreases |visits|
  {
    if visits == [] then link else Sessions(marshal, Session(marshal, link, visits[0]), visits[1..])
  }

  ghost predicate AllClean(marshal: Marshal, link: Link, visits: seq<Visit>)
    decreases |visits|
  {
    visits != [] ==>
      Clean(marshal, link, visits[0]) && AllClean(marshal, Session(marshal, link, visits[0]), visits[1..])
  }

  /** A client that has not connected yet. */
  function Opened(file: string, req: Request): Link {
    Link(file, req, [], Sse.CONNECTED)
  }

  /** The lines held are exactly those from `o` up to the newline `at`. */
  ghost predicate Holds(o: nat, file: string, got: seq<Line>, at: int) {
    0 < at < |file| && o <= at && file[at] == NL && got == LinesIn(file, o, at)
  }

  /** What the client holds is the lines from `o` up to a newline, each once and in order, heard as they are
      meant to be. */
  ghost predicate Unbroken(marshal: Marshal, o: nat, link: Link) {
    && link.client.events == Heard(marshal, link.got)
    && (link.got != [] ==> Holds(o, link.file, link.got, EndOf(link.got)))
  }

  /** A start from which nothing can go wrong: the first request parks on a newline, and no line without an ID comes
      first. */
  ghost predicate Fit(file: string, o: nat) {
    Parks(file, o) && (o > 0 || file[0] == NL)
  }

  /** Between connections: nothing heard yet, or everything up to the newline the last event ID names. */
  ghost predicate Steady(marshal: Marshal, o: nat, link: Link) {
    && Unbroken(marshal, o, link) && Named(link.got)
    && link.client.lastId == (if link.got == [] then "" else Show(EndOf(link.got)))
    && (link.got == [] ==> Fit(link.file, o))
  }

  lemma LineStart(file: string, lo: nat, hi: nat, l: Line)
    requires lo <= hi <= |file| && IsLine(file, lo, hi, l)
    ensures file[l.offset] != NL
  {
    assert file[l.offset] == l.message[0];
  }

  /** Only a line at offset 0 has no ID. */
  lemma LinesNamed(file: string, lo: nat, hi: nat)
    requires lo <= hi <= |file| && file != "" && (lo > 0 || file[0] == NL)
    ensures Named(LinesIn(file, lo, hi))
  {
    var all := LinesIn(file, lo, hi);
    LinesAreLines(file, lo, hi);
    forall i | 0 <= i < |all| ensures all[i].offset > 0 && all[i].size > 0 {
      LineStart(file, lo, hi, all[i]);
    }
  }

  /** The first k lines up to a newline end on a newline, and are the lines up to it. */
  lemma HoldsFirst(o: nat, file: string, hi: nat, k: nat, got: seq<Line>)
    requires o <= hi < |file| && file[hi] == NL && 0 < k <= |LinesIn(file, o, hi)| && got == LinesIn(file, o, hi)[..k]
    requires o > 0 || file[0] == NL
    ensures Holds(o, file, got, EndOf(got)) && Named(got)
  {
    LinesCut(file, o, hi, k);
    LinesNamed(file, o, hi);
  }

  /** The first k lines delivered after parking. */
  lemma DeliveredUpTo(o: nat, w: World, k: nat)
    requires Parked(o, w) && Tallied(STREAM, w) && 0 < k <= |w.delivered|
    requires o > 0 || w.file[0] == NL
    ensures Holds(o, w.file, w.delivered[..k], EndOf(w.delivered[..k])) && Named(w.delivered[..k])
  {
    var got := w.delivered[..k];
    TakeOfBoth(w.popped, Rev(w.p.buffer), k);
    HoldsFirst(o, w.file, w.p.offset, k, got);
  }

  lemma TakeOfBoth<T>(a: seq<T>, b: seq<T>, k: nat)
    requires k <= |a|
    ensures a[..k] == (a + b)[..k]
  {
  }

  /** A connection from a start where nothing can go wrong: once it has delivered something, it is parked. */
  lemma {:induction false} FitRuns(file: string, o: nat, events: seq<Event>)
    requires Fit(file, o)
    ensures Flows(o, Run(STREAM, Start(file, o), events))
  {
    RunParks(STREAM, o, Start(file, o), events);
  }

  ghost predicate Flows(o: nat, w: World) {
    && Tallied(STREAM, w) && (Waiting(o, w) || Parked(o, w))
    && w.file != "" && (o > 0 || w.file[0] == NL)
  }

  lemma FlowParks(o: nat, w: World)
    requires Flows(o, w) && w.delivered != []
    ensures Parked(o, w)
  {
  }

  /** What the first k lines of such a connection are. */
  lemma ConnectionDelivers(o: nat, w: World, k: nat)
    requires Flows(o, w) && 0 < k <= |w.delivered|
    ensures Holds(o, w.file, w.delivered[..k], EndOf(w.delivered[..k])) && Named(w.delivered[..k])
  {
    FlowParks(o, w);
    DeliveredUpTo(o, w, k);
  }

  lemma HoldsMore(o: nat, file: string, got: seq<Line>, at: nat, grown: string, next: int)
    requires Holds(o, file, got, at) && file <= grown && at <= next < |grown| && grown[next] == NL
    ensures Holds(o, grown, got + LinesIn(grown, at, next), next)
  {
    LinesInGrow(file, grown, o, at);
    if at < next {
      LinesSplit(grown, o, at, next);
      LinesSkipNewline(grown, at, next);
    } else {
      LinesInEmpty(grown, at);
    }
  }

  /** Where the next connection of a client starts. */
  function NextStart(o: nat, link: Link): int {
    if link.got == [] then o else EndOf(link.got)
  }

  /** A connection in terms of the run it opens: the last event ID decides the start, nothing else does. */
  lemma SessionRuns(marshal: Marshal, o: nat, link: Link, v: Visit)
    requires StartsAt(link.req, o) && Steady(marshal, o, link) && NextStart(o, link) <= MAX_INT
    ensures NextStart(o, link) >= 0
    ensures Connect(link.req.(lastEventId := link.client.lastId), Up(link.file))
         == Ok((STREAM, Progress(NextStart(o, link), [], 0, 0)))
  {
    if link.got != [] {
      ConnectResumes(link.req.(lastEventId := link.client.lastId), EndOf(link.got), Up(link.file));
    } else {
      assert Connect(link.req.(lastEventId := ""), Up(link.file)) == Ok((STREAM, Progress(o, [], 0, 0)));
    }
  }

  lemma NamedConcat(a: seq<Line>, b: seq<Line>)
    requires Named(a) && Named(b) && b != []
    ensures Named(a + b) && EndOf(a + b) == EndOf(b)
  {
  }

  /** A client that heard some more lines. */
  lemma {:induction false} HearsMore(marshal: Marshal, o: nat, link: Link, file: string, ls: seq<Line>,
                                     heard: Sse.Client)
    requires Steady(marshal, o, link) && link.file <= file && ls != [] && Named(ls)
    requires NextStart(o, link) >= 0 && Holds(NextStart(o, link), file, ls, EndOf(ls))
    requires heard.events == link.client.events + Heard(marshal, ls) && heard.lastId == Show(EndOf(ls))
    ensures Steady(marshal, o, Link(file, link.req, link.got + ls, heard))
  {
    HeardConcat(marshal, link.got, ls);
    HoldsAll(o, link.file, link.got, file, ls);
    NamedConcat(link.got, ls);
    SteadyOf(marshal, o, Link(file, link.req, link.got + ls, heard));
  }

  lemma SteadyOf(marshal: Marshal, o: nat, link: Link)
    requires link.got != [] && Named(link.got) && link.client.events == Heard(marshal, link.got)
    requires Holds(o, link.file, link.got, EndOf(link.got)) && link.client.lastId == Show(EndOf(link.got))
    ensures Steady(marshal, o, link)
  {
  }

  lemma HoldsAll(o: nat, file: string, got: seq<Line>, grown: string, ls: seq<Line>)
    requires got != [] ==> Holds(o, file, got, EndOf(got))
    requires file <= grown && ls != []
    requires var at := if got == [] then o else EndOf(got); at >= 0 && Holds(at, grown, ls, EndOf(ls))
    ensures Holds(o, grown, got + ls, EndOf(ls))
  {
    if got != [] {
      HoldsMore(o, file, got, EndOf(got), grown, EndOf(ls));
    } else {
      assert got + ls == ls;
    }
  }

  lemma FitGrows(file: string, grown: string, o: nat)
    requires Fit(file, o) && file <= grown
    ensures Fit(grown, o)
  {
    ParksGrows(file, grown, o);
  }

  /** A client that heard nothing new. */
  lemma HearsNothing(marshal: Marshal, o: nat, link: Link, file: string, heard: Sse.Client)
    requires Steady(marshal, o, link) && link.file <= file && Sse.SoundsLike(heard, link.client)
    ensures Steady(marshal, o, Link(file, link.req, link.got, heard))
  {
    if link.got == [] {
      FitGrows(link.file, file, o);
    } else {
      LinesInGrow(link.file, file, o, EndOf(link.got));
    }
  }

  lemma NextFits(marshal: Marshal, o: nat, link: Link)
    requires Steady(marshal, o, link)
    ensures NextStart(o, link) >= 0 && Fit(link.file, NextStart(o, link))
  {
    if link.got != [] {
      assert Window(link.file, EndOf(link.got), CHUNK_SIZE)[0] == NL;
    }
  }

  lemma SessionKeeps(marshal: Marshal, o: nat, link: Link, v: Visit)
    requires OneLineJson(marshal) && StartsAt(link.req, o) && Steady(marshal, o, link) && NextStart(o, link) <= MAX_INT
    requires Clean(marshal, link, v)
    ensures Steady(marshal, o, Session(marshal, link, v)) && Session(marshal, link, v).req == link.req
  {
    NextFits(marshal, o, link);
    var at: nat := NextStart(o, link);
    SessionRuns(marshal, o, link, v);
    var w0 := Start(link.file, at);
    var (parts, n) := Conveyed(marshal, STREAM, w0, v);
    RunTallies(STREAM, w0, EventsOf(v.moments));
    FitRuns(link.file, at, EventsOf(v.moments));
    PartsDelivered(STREAM, w0, v.moments);
    ConveyedKeeps(marshal, o, link, Run(STREAM, w0, EventsOf(v.moments)), parts, n, at);
  }

  /** What a run delivers keeps a client Steady, however much of it arrives. */
  lemma {:induction false} ConveyedKeeps(marshal: Marshal, o: nat, link: Link, w: World, parts: seq<Part>, n: nat,
                                         at: nat)
    requires OneLineJson(marshal) && Steady(marshal, o, link) && at == NextStart(o, link) && link.file <= w.file
    requires Flows(at, w) && w.delivered == [] + LinesOf(parts) && n <= |Sent(marshal, parts)|
    requires Fits(AsEvent(marshal), parts[..Landed(marshal, parts, n)])
    ensures Steady(marshal, o, Link(w.file, link.req, link.got + LinesOf(parts[..Landed(marshal, parts, n)]),
                                    Listen(marshal, link.client, parts, n)))
  {
    var k := Landed(marshal, parts, n);
    ListenHears(marshal, link.client, parts, n);
    LinesOfTake(parts, k);
    assert [] + LinesOf(parts) == LinesOf(parts);
    HeardKeeps(marshal, o, link, w, LinesOf(parts[..k]), Listen(marshal, link.client, parts, n), at);
  }

  lemma {:induction false} HeardKeeps(marshal: Marshal, o: nat, link: Link, w: World, ls: seq<Line>, heard: Sse.Client,
                                      at: nat)
    requires Steady(marshal, o, link) && at == NextStart(o, link) && link.file <= w.file
    requires Flows(at, w) && ls <= w.delivered
    requires heard.events == link.client.events + Sse.Received(Items(marshal, ls), "")
    requires heard.lastId == if ls == [] then link.client.lastId else Sse.LastId(Items(marshal, ls), "")
    ensures Steady(marshal, o, Link(w.file, link.req, link.got + ls, heard))
  {
    if ls == [] {
      assert link.got + ls == link.got && link.client.events + [] == link.client.events;
      HearsNothing(marshal, o, link, w.file, heard);
    } else {
      FirstDelivered(at, w, ls);
      NamedHeard(marshal, link.client, ls, heard);
      HearsMore(marshal, o, link, w.file, ls, heard);
    }
  }

  lemma FirstDelivered(o: nat, w: World, ls: seq<Line>)
    requires Flows(o, w) && ls != [] && ls <= w.delivered
    ensures Holds(o, w.file, ls, EndOf(ls)) && Named(ls)
  {
    assert w.delivered[..|ls|] == ls;
    ConnectionDelivers(o, w, |ls|);
  }

  lemma {:induction false} NamedHeard(marshal: Marshal, client: Sse.Client, ls: seq<Line>, heard: Sse.Client)
    requires ls != [] && Named(ls)
    requires heard.events == client.events + Sse.Received(Items(marshal, ls), "")
    requires heard.lastId == Sse.LastId(Items(marshal, ls), "")
    ensures heard.events == client.events + Heard(marshal, ls) && heard.lastId == Show(EndOf(ls))
  {
    HeardReceived(marshal, ls, "");
  }

  lemma {:induction false} SessionsGrow(marshal: Marshal, link: Link, visits: seq<Visit>)
    ensures link.file <= Sessions(marshal, link, visits).file
    decreases |visits|
  {
    if visits != [] {
      var r := Connect(link.req.(lastEventId := link.client.lastId), Up(link.file));
      if r.Ok? {
        RunGrows(r.value.0, World(link.file, r.value.1, [], []), EventsOf(visits[0].moments));
      }
      SessionsGrow(marshal, Session(marshal, link, visits[0]), visits[1..]);
    }
  }

  lemma {:induction false} RunGrows(cfg: Settings, w: World, events: seq<Event>)
    ensures w.file <= Run(cfg, w, events).file
    decreases |events|
  {
    if events != [] {
      RunGrows(cfg, Apply(cfg, w, events[0]), events[1..]);
    }
  }

  /** Reconnecting is seamless from a start where nothing can go wrong: over any number of connections, each with any
      interleaving of appends and reads and cut off after any byte, a client is always Steady, as long as no
      event that its buffer cut off is followed by a whole one. */
  lemma {:induction false} SeamlessReconnect(marshal: Marshal, o: nat, link: Link, visits: seq<Visit>)
    requires OneLineJson(marshal) && StartsAt(link.req, o) && Steady(marshal, o, link)
    requires o <= MAX_INT && |Sessions(marshal, link, visits).file| <= MAX_INT
    requires AllClean(marshal, link, visits)
    ensures Steady(marshal, o, Sessions(marshal, link, visits))
    decreases |visits|
  {
    if visits != [] {
      SessionsGrow(marshal, link, visits);
      SessionKeeps(marshal, o, link, visits[0]);
      SeamlessReconnect(marshal, o, Session(marshal, link, visits[0]), visits[1..]);
    }
  }

  /** A connection brings no more events than lines, and fewer when one is glued to the next. */
  lemma SessionHears(marshal: Marshal, link: Link, v: Visit)
    requires OneLineJson(marshal)
    ensures var after := Session(marshal, link, v);
      && |after.client.events| - |link.client.events| <= |after.got| - |link.got|
      && (!Clean(marshal, link, v) ==> |after.client.events| - |link.client.events| < |after.got| - |link.got|)
  {
    match Connect(link.req.(lastEventId := link.client.lastId), Up(link.file))
    case Err(_) =>
    case Ok((cfg, p)) =>
      var (parts, n) := Conveyed(marshal, cfg, World(link.file, p, [], []), v);
      HearsAtMost(marshal, Sse.Reconnected(link.client), parts, n);
      LinesOfTake(parts[..Landed(marshal, parts, n)], 0);
  }

  /** A client that has missed an event never makes up for it. */
  lemma {:induction false} NeverMadeUp(marshal: Marshal, o: nat, link: Link, visits: seq<Visit>)
    requires OneLineJson(marshal) && |link.client.events| < |link.got|
    ensures !Unbroken(marshal, o, Sessions(marshal, link, visits))
    decreases |visits|
  {
    if visits != [] {
      SessionHears(marshal, link, visits[0]);
      NeverMadeUp(marshal, o, Session(marshal, link, visits[0]), visits[1..]);
    }
  }

  /** That is exactly when: what a client holds is unbroken after some connections if and only if in none of them an
      event that its buffer cut off was followed by a whole one. Both become one event, and the ID moves on. */
  lemma {:induction false} SeamlessCleanIff(marshal: Marshal, o: nat, link: Link, visits: seq<Visit>)
    requires OneLineJson(marshal) && StartsAt(link.req, o) && Steady(marshal, o, link)
    requires o <= MAX_INT && |Sessions(marshal, link, visits).file| <= MAX_INT
    ensures Unbroken(marshal, o, Sessions(marshal, link, visits)) <==> AllClean(marshal, link, visits)
    decreases |visits|
  {
    if visits != [] {
      SessionsGrow(marshal, link, visits);
      var after := Session(marshal, link, visits[0]);
      if Clean(marshal, link, visits[0]) {
        SessionKeeps(marshal, o, link, visits[0]);
        SeamlessCleanIff(marshal, o, after, visits[1..]);
      } else {
        SessionHears(marshal, link, visits[0]);
        NeverMadeUp(marshal, o, after, visits[1..]);
      }
    }
  }

  /** So the client's lines are a beginning of the file's, and it never disagrees with a client whose one connection
      was not interrupted. */
  lemma {:induction false} SeamlessAgrees(marshal: Marshal, o: nat, link: Link, file: string, events: seq<Event>)
    requires Steady(marshal, o, link) && Fit(file, o) && Run(STREAM, Start(file, o), events).file == link.file
    ensures link.got <= LinesFrom(link.file, o)
    ensures var w := Run(STREAM, Start(file, o), events); link.got <= w.delivered || w.delivered <= link.got
  {
    var w := Run(STREAM, Start(file, o), events);
    if link.got != [] {
      HoldsPrefix(o, link.file, link.got, EndOf(link.got));
    }
    if w.delivered != [] {
      FitRuns(file, o, events);
      ConnectionDelivers(o, w, |w.delivered|);
      assert w.delivered[..|w.delivered|] == w.delivered;
      HoldsPrefix(o, w.file, w.delivered, EndOf(w.delivered));
    }
  }

  /** And what it has heard decodes to the text of exactly these lines. */
  lemma SeamlessReads(marshal: Marshal, decode: string -> string, o: nat, link: Link)
    requires OneLineJson(marshal) && Inverts(decode, marshal) && Steady(marshal, o, link)
    ensures Decoded(decode, link.client.events) == Messages(link.got)
    ensures Decoded(decode, link.client.events) <= Messages(LinesFrom(link.file, o))
  {
    HeardDecodes(marshal, decode, link.got);
    if link.got != [] {
      HoldsPrefix(o, link.file, link.got, EndOf(link.got));
    }
    var all := LinesFrom(link.file, o);
    assert link.got == all[..|link.got|];
  }

  lemma HoldsPrefix(o: nat, file: string, got: seq<Line>, at: int)
    requires Holds(o, file, got, at)
    ensures got <= LinesFrom(file, o)
  {
    LinesSplit(file, o, at, |file|);
  }

  /** Moments with buffers that hold everything. */
  function Ample(marshal: Marshal, cfg: Settings, w: World, events: seq<Event>): seq<Moment>
    decreases |events|
  {
    if events == [] then []
    else
      var v := Apply(cfg, w, events[0]);
      var room := if |v.delivered| > |w.delivered| then |AsEvent(marshal)(v.delivered[|w.delivered|])| else 0;
      [Moment(events[0], room)] + Ample(marshal, cfg, v, events[1..])
  }

  lemma {:induction false} AmpleFits(marshal: Marshal, cfg: Settings, w: World, events: seq<Event>)
    ensures EventsOf(Ample(marshal, cfg, w, events)) == events
    ensures Fits(AsEvent(marshal), Parts(cfg, w, Ample(marshal, cfg, w, events)))
    decreases |events|
  {
    if events != [] {
      var moments, v := Ample(marshal, cfg, w, events), Apply(cfg, w, events[0]);
      assert moments[1..] == Ample(marshal, cfg, v, events[1..]);
      AmpleFits(marshal, cfg, v, events[1..]);
      FitsBoth(marshal, PartAt(cfg, w, moments[0]), Parts(cfg, v, moments[1..]));
    }
  }

  lemma FitsBoth(marshal: Marshal, a: seq<Part>, b: seq<Part>)
    requires Fits(AsEvent(marshal), a) && Fits(AsEvent(marshal), b)
    ensures Fits(AsEvent(marshal), a + b)
  {
  }

  /** A client that receives everything a connection sends, with buffers that hold it. */
  lemma HearsAll(marshal: Marshal, file: string, req: Request, got: seq<Line>, client: Sse.Client, o: nat,
                 events: seq<Event>)
    returns (v: Visit, parts: seq<Part>)
    requires StartsAt(req, o) && client.lastId == ""
    ensures Clean(marshal, Link(file, req, got, client), v) && Fits(AsEvent(marshal), parts)
    ensures var w, link := Run(STREAM, Start(file, o), events), Session(marshal, Link(file, req, got, client), v);
      && LinesOf(parts) == w.delivered
      && link.file == w.file && link.req == req && link.got == got + w.delivered
      && link.client == Listen(marshal, client, parts, |Sent(marshal, parts)|)
  {
    var w0 := Start(file, o);
    var moments := Ample(marshal, STREAM, w0, events);
    AmpleFits(marshal, STREAM, w0, events);
    PartsDelivered(STREAM, w0, moments);
    parts := Parts(STREAM, w0, moments);
    assert [] + LinesOf(parts) == LinesOf(parts) && parts[..|parts|] == parts;
    v := Visit(moments, |Sent(marshal, parts)|);
    assert Connect(req.(lastEventId := ""), Up(file)) == Ok((STREAM, Progress(o, [], 0, 0)));
    AllLand(marshal, parts);
  }

  lemma LineBeforeWhole(file: string, o: nat, at: nat, l: Line)
    requires o <= at < |file| && file[at] == NL && IsLine(file, o, at, l)
    ensures Whole(file, o, l)
  {
  }

  /** Nothing heard is torn, overlaps or repeats. */
  lemma UnbrokenIntact(marshal: Marshal, o: nat, link: Link, w: World)
    requires Unbroken(marshal, o, link) && link.file == w.file && link.got == w.popped
    ensures Intact(o, w)
  {
    if link.got != [] {
      HeldWhole(o, link.file, link.got, EndOf(link.got));
    }
  }

  lemma HeldWhole(o: nat, file: string, got: seq<Line>, at: int)
    requires Holds(o, file, got, at)
    ensures Apart(got) && forall i :: 0 <= i < |got| ==> Whole(file, o, got[i])
  {
    LinesAreLines(file, o, at);
    forall i | 0 <= i < |got| ensures Whole(file, o, got[i]) {
      LineBeforeWhole(file, o, at, got[i]);
    }
  }

  /** A first connection that tears a line. */
  lemma TornVisit(marshal: Marshal, req: Request, file: string, o: nat) returns (v: Visit)
    requires StartsAt(req, o) && !Parks(file, o)
    ensures Clean(marshal, Opened(file, req), v)
    ensures var link := Session(marshal, Opened(file, req), v);
      !Unbroken(marshal, o, link) && |link.file| <= Max(|file|, o) + 1
  {
    var events := TearsUnlessParked(STREAM, file, o);
    var parts: seq<Part>;
    v, parts := HearsAll(marshal, file, req, [], Sse.CONNECTED, o, events);
    var w := Run(STREAM, Start(file, o), events);
    RunTallies(STREAM, Start(file, o), events);
    assert [] + w.delivered == w.popped;
    if Unbroken(marshal, o, Session(marshal, Opened(file, req), v)) {
      UnbrokenIntact(marshal, o, Session(marshal, Opened(file, req), v), w);
    }
  }

  /** One poll of a stream from the top delivers the line at offset 0, which has no ID. */
  lemma TopLine(file: string) returns (l: Line)
    requires file != "" && file[0] != NL
    ensures l.offset == 0
    ensures var w := Run(STREAM, Start(file, 0), Polls(1)); w.file == file && w.delivered == [l]
  {
    AtEndIff(file, 0);
    LandInside(file, 0);
    var w, upTo := Start(file, 0), Land(file, 0).upTo;
    FirstLineStarts(file, 0, upTo);
    l := LinesIn(file, 0, upTo)[0];
    PassFills(STREAM, w);
    var v := Pass(STREAM, w, Up(file));
    assert Polls(1)[1..] == [] && Run(STREAM, w, Polls(1)) == v;
    assert [] + LinesIn(file, 0, upTo) == LinesIn(file, 0, upTo) == Taken(v);
    assert v.popped[0] == Taken(v)[0];
    PassTally(STREAM, w, Up(file));
  }

  /** A client that got only the line at offset 0 is sent it again: it has no ID to come back with. */
  lemma TopLineTwice(marshal: Marshal, req: Request, file: string) returns (v: Visit, u: Visit)
    requires OneLineJson(marshal) && StartsAt(req, 0) && file != "" && file[0] != NL
    ensures AllClean(marshal, Opened(file, req), [v, u])
    ensures var link := Session(marshal, Session(marshal, Opened(file, req), v), u);
      link.file == file && |link.got| == 2 && link.got[0] == link.got[1]
  {
    var l := TopLine(file);
    var client := Sse.CONNECTED;
    v, client := TopLineOnce(marshal, req, file, [], client, l);
    assert [] + [l] == [l];
    u, client := TopLineOnce(marshal, req, file, [l], client, l);
    CleanTwo(marshal, Opened(file, req), v, u);
  }

  /** One connection of a client without an ID that brings just this line. */
  lemma TopLineOnce(marshal: Marshal, req: Request, file: string, got: seq<Line>, client: Sse.Client, l: Line)
    returns (v: Visit, after: Sse.Client)
    requires OneLineJson(marshal) && StartsAt(req, 0) && client.lastId == "" && l.offset == 0
    requires var w := Run(STREAM, Start(file, 0), Polls(1)); w.file == file && w.delivered == [l]
    ensures Clean(marshal, Link(file, req, got, client), v) && after.lastId == ""
    ensures Session(marshal, Link(file, req, got, client), v) == Link(file, req, got + [l], after)
  {
    var parts: seq<Part>;
    v, parts := HearsAll(marshal, file, req, got, client, 0, Polls(1));
    after := Listen(marshal, client, parts, |Sent(marshal, parts)|);
    NamelessHeard(marshal, client, parts, l);
  }

  lemma {:induction false} CleanTwo(marshal: Marshal, link: Link, v: Visit, u: Visit)
    requires Clean(marshal, link, v) && Clean(marshal, Session(marshal, link, v), u)
    ensures AllClean(marshal, link, [v, u])
  {
    assert [v, u][1..] == [u] && [u][1..] == [];
    assert AllClean(marshal, Session(marshal, Session(marshal, link, v), u), []);
    assert AllClean(marshal, Session(marshal, link, v), [u]);
  }

  lemma {:induction false} CleanOne(marshal: Marshal, link: Link, v: Visit)
    requires Clean(marshal, link, v)
    ensures AllClean(marshal, link, [v])
  {
    assert [v][1..] == [];
    assert AllClean(marshal, Session(marshal, link, v), []);
  }

  /** A line at offset 0 leaves a client without an ID. */
  lemma {:induction false} NamelessHeard(marshal: Marshal, client: Sse.Client, parts: seq<Part>, l: Line)
    requires OneLineJson(marshal) && LinesOf(parts) == [l] && l.offset <= 0 && Fits(AsEvent(marshal), parts)
    ensures Listen(marshal, client, parts, |Sent(marshal, parts)|).lastId == ""
  {
    AllLand(marshal, parts);
    assert parts[..|parts|] == parts;
    ListenHears(marshal, client, parts, |Sent(marshal, parts)|);
    assert [l][1..] == [] && Items(marshal, [l]) == [ItemOf(marshal, l)] && [ItemOf(marshal, l)][1..] == [];
    assert Sse.LastId([ItemOf(marshal, l)], "") == Sse.LastId([], "") == "";
  }

  lemma RepeatBreaks(marshal: Marshal, o: nat, link: Link)
    requires |link.got| == 2 && link.got[0] == link.got[1]
    ensures !Unbroken(marshal, o, link)
  {
    if Unbroken(marshal, o, link) {
      HeldWhole(o, link.file, link.got, EndOf(link.got));
    }
  }

  /** What a client holds after these connections is unbroken exactly when they were clean, as long as the file's size
      fits in 64 bits. */
  ghost predicate Survives(marshal: Marshal, o: nat, link: Link, visits: seq<Visit>) {
    var end := Sessions(marshal, link, visits);
    |end.file| <= MAX_INT ==> (Unbroken(marshal, o, end) <==> AllClean(marshal, link, visits))
  }

  /** When reconnecting is seamless: a client that starts a stream at `o` holds, over every sequence of clean
      connections cut off anywhere and every interleaving with the writer, and only over these, exactly the lines from
      `o` up to the last one it heard, each once, if and only if its first request parks on a newline and no line lies
      at offset 0 there. */
  lemma SeamlessIff(marshal: Marshal, req: Request, file: string, o: nat)
    requires OneLineJson(marshal) && StartsAt(req, o) && o < MAX_INT && |file| < MAX_INT
    ensures (forall visits :: Survives(marshal, o, Opened(file, req), visits)) <==> Fit(file, o)
  {
    var link := Opened(file, req);
    if Fit(file, o) {
      forall visits ensures Survives(marshal, o, link, visits) {
        if |Sessions(marshal, link, visits).file| <= MAX_INT {
          SeamlessCleanIff(marshal, o, link, visits);
        }
      }
    } else if !Parks(file, o) {
      var v := TornVisit(marshal, req, file, o);
      SessionsOne(marshal, link, v);
      CleanOne(marshal, link, v);
      assert !Survives(marshal, o, link, [v]);
    } else {
      var v, u := TopLineTwice(marshal, req, file);
      SessionsTwo(marshal, link, v, u);
      RepeatBreaks(marshal, o, Session(marshal, Session(marshal, link, v), u));
      assert !Survives(marshal, o, link, [v, u]);
    }
  }

  lemma {:induction false} SessionsOne(marshal: Marshal, link: Link, v: Visit)
    ensures Sessions(marshal, link, [v]) == Session(marshal, link, v)
  {
    assert [v][1..] == [];
  }

  lemma {:induction false} SessionsTwo(marshal: Marshal, link: Link, v: Visit, u: Visit)
    ensures Sessions(marshal, link, [v, u]) == Session(marshal, Session(marshal, link, v), u)
  {
    assert [v, u][1..] == [u];
    SessionsOne(marshal, Session(marshal, link, v), u);
  }

  /** Reads into buffers of one size. */
  function Into(events: seq<Event>, room: nat): seq<Moment> {
    if events == [] then [] else [Moment(events[0], room)] + Into(events[1..], room)
  }

  lemma {:induction false} IntoParts(cfg: Settings, w: World, events: seq<Event>, room: nat)
    ensures EventsOf(Into(events, room)) == events
    ensures OneRoom(Parts(cfg, w, Into(events, room)), room)
    decreases |events|
  {
    if events != [] {
      assert Into(events, room)[1..] == Into(events[1..], room);
      IntoParts(cfg, Apply(cfg, w, events[0]), events[1..], room);
    }
  }

  ghost predicate OneRoom(parts: seq<Part>, room: nat) {
    forall i :: 0 <= i < |parts| ==> parts[i].room == room
  }

  /** A line whose event does not fit the buffer, and one after it whose event does. */
  ghost predicate LongThenShort(marshal: Marshal, room: nat, l: Line, m: Line) {
    |AsEvent(marshal)(m)| <= room < |AsEvent(marshal)(l)|
  }

  lemma {:induction false} TwoLand(marshal: Marshal, parts: seq<Part>, l: Line, m: Line, room: nat)
    requires parts == [Part(l, room), Part(m, room)] && LongThenShort(marshal, room, l, m)
    ensures Landed(marshal, parts, |Sent(marshal, parts)|) == 2 && !Fits(AsEvent(marshal), parts[..2])
  {
    var rest := [Part(m, room)];
    assert parts[1..] == rest && rest[1..] == [] && parts[..2] == parts;
    assert Landed(marshal, rest, |Sent(marshal, rest)|) == 1;
    assert |AsEvent(marshal)(parts[0].line)| > parts[0].room;
  }

  lemma {:induction false} TwoParts(parts: seq<Part>, l: Line, m: Line, room: nat)
    requires LinesOf(parts) == [l, m] && OneRoom(parts, room)
    ensures parts == [Part(l, room), Part(m, room)]
  {
    LinesOfTake(parts, 0);
    var rest := parts[1..];
    assert LinesOf(parts) == [parts[0].line] + LinesOf(rest) && LinesOf(rest) == [rest[0].line] + LinesOf(rest[1..]);
    assert LinesOf(parts)[0] == parts[0].line && LinesOf(parts)[1] == LinesOf(rest)[0] == rest[0].line;
    assert parts == [parts[0], parts[1]];
  }

  /** Two lines and the newline before them. */
  lemma LongFile(file: string, long: string, n: nat)
    requires NL !in long && long != "" && n == |long| + 2 && n + 3 < CHUNK_SIZE && file == "a\n" + long + "\ny\n"
    ensures Fit(file, 1) && !AtEnd(file, 1) && Land(file, 1) == Landing(|file| - 1, |file| - 1)
    ensures LinesIn(file, 1, |file| - 1) == [Line(long, 2, |long|), Line("y", n + 1, 1)]
  {
    LongShape(file, long, n);
    LongLands(file);
    LinesSkipNewline(file, 1, n + 2);
    LinesSplit(file, 2, n, n + 2);
    LinesInRun(file, 2, n);
    LinesInRun(file, n + 1, n + 2);
  }

  lemma LongShape(file: string, long: string, n: nat)
    requires n == |long| + 2 && file == "a\n" + long + "\ny\n"
    ensures |file| == n + 3 && file[1] == NL && file[n] == NL && file[n + 2] == NL && file[2..n] == long
    ensures file[n + 1..n + 2] == "y"
  {
  }

  lemma LongLands(file: string)
    requires 2 < |file| < CHUNK_SIZE && file[1] == NL && file[|file| - 1] == NL
    ensures Fit(file, 1) && !AtEnd(file, 1) && Land(file, 1) == Landing(|file| - 1, |file| - 1)
  {
    var w := Window(file, 1, CHUNK_SIZE);
    assert w[0] == NL && w[|w| - 1] == file[|file| - 1];
    AtEndIff(file, 1);
  }

  /** The case the condition shuts out: from a start where nothing else can go wrong, a line whose event does not fit
      the buffer (io.Copy uses one of 32768 bytes) and a short line after it are heard as one event at most, and no
      further connection makes up for it. */
  lemma LongLineLost(marshal: Marshal, req: Request, long: string, room: nat) returns (v: Visit)
    requires OneLineJson(marshal) && StartsAt(req, 1)
    requires NL !in long && long != "" && |long| + 5 < CHUNK_SIZE
    requires LongThenShort(marshal, room, Line(long, 2, |long|), Line("y", |long| + 3, 1))
    ensures Fit("a\n" + long + "\ny\n", 1)
    ensures forall i :: 0 <= i < |v.moments| ==> v.moments[i].room == room
    ensures var link := Session(marshal, Opened("a\n" + long + "\ny\n", req), v);
      && link.got == [Line(long, 2, |long|), Line("y", |long| + 3, 1)] && |link.client.events| <= 1
      && forall visits :: !Unbroken(marshal, 1, Sessions(marshal, link, visits))
  {
    var file, l, m := "a\n" + long + "\ny\n", Line(long, 2, |long|), Line("y", |long| + 3, 1);
    LongFile(file, long, |long| + 2);
    var w0 := Start(file, 1);
    var n := PollsTake(STREAM, w0);
    RunTallies(STREAM, w0, Polls(n));
    IntoParts(STREAM, w0, Polls(n), room);
    v := LongVisit(marshal, req, file, Polls(n), room, l, m);
    var link := Session(marshal, Opened(file, req), v);
    forall visits ensures !Unbroken(marshal, 1, Sessions(marshal, link, visits)) {
      NeverMadeUp(marshal, 1, link, visits);
    }
  }

  lemma LongVisit(marshal: Marshal, req: Request, file: string, events: seq<Event>, room: nat, l: Line, m: Line)
    returns (v: Visit)
    requires OneLineJson(marshal) && StartsAt(req, 1) && LongThenShort(marshal, room, l, m)
    requires Run(STREAM, Start(file, 1), events).delivered == [l, m]
    ensures v.moments == Into(events, room) && forall i :: 0 <= i < |v.moments| ==> v.moments[i].room == room
    ensures var link := Session(marshal, Opened(file, req), v); link.got == [l, m] && |link.client.events| <= 1
  {
    var w0 := Start(file, 1);
    var parts := Parts(STREAM, w0, Into(events, room));
    IntoParts(STREAM, w0, events, room);
    IntoRooms(events, room);
    PartsDelivered(STREAM, w0, Into(events, room));
    assert [] + LinesOf(parts) == LinesOf(parts);
    TwoParts(parts, l, m, room);
    TwoLand(marshal, parts, l, m, room);
    v := Visit(Into(events, room), |Sent(marshal, parts)|);
    assert Connect(req.(lastEventId := ""), Up(file)) == Ok((STREAM, Progress(1, [], 0, 0)));
    assert parts[..2] == parts && [] + [l, m] == [l, m];
    SessionHears(marshal, Opened(file, req), v);
  }

  lemma {:induction false} IntoRooms(events: seq<Event>, room: nat)
    ensures forall i :: 0 <= i < |Into(events, room)| ==> Into(events, room)[i].room == room
  {
    if events != [] {
      IntoRooms(events[1..], room);
    }
  }
}
