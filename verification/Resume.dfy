/** Coming back to a file at rest: what a client that was cut off gets from its next connection. */
module Resume {
  import opened Prelude
  import opened Text
  import opened Lines
  import opened FilesReader
  import opened Refills
  import opened WholeRun
  import opened Decimal
  import opened FilesHandler
  import opened Sending
  import opened Reconnect
  import Sse

  /** A client of a first connection that was sent these lines, each in its buffer. */
  function First(marshal: Marshal, parts: seq<Part>): Sse.Client {
    Listen(marshal, Sse.CONNECTED, parts, |Sent(marshal, parts)|)
  }

  /** It has heard them all. */
  ghost predicate HasHeard(marshal: Marshal, parts: seq<Part>) {
    First(marshal, parts).events == Heard(marshal, LinesOf(parts))
  }

  /** It asked for the stream from `o`, and comes back with its last event ID. */
  function Again(marshal: Marshal, o: nat, parts: seq<Part>): Request {
    StreamRequest(o).(lastEventId := First(marshal, parts).lastId)
  }

  /** Its next connection, for some reads. */
  function Resumed(marshal: Marshal, file: string, o: nat, parts: seq<Part>, rounds: nat): Served {
    match Connect(Again(marshal, o, parts), Up(file))
    case Err(_) => Served(Progress(0, [], 0, 0), [], false)
    case Ok((cfg, p)) => Serve(cfg, p, file, rounds)
  }

  /** That connection reaches the end of the file, having delivered exactly these lines. */
  ghost predicate Gets(marshal: Marshal, file: string, o: nat, parts: seq<Part>, rest: seq<Line>) {
    exists rounds :: Ends(Resumed(marshal, file, o, parts, rounds), rest)
  }

  predicate Ends(r: Served, rest: seq<Line>) {
    r.finished && r.delivered == rest
  }

  lemma {:induction false} LastIdOf(marshal: Marshal, ls: seq<Line>, lastId: string)
    requires ls != [] && ls[|ls| - 1].offset > 0 && ls[|ls| - 1].size > 0
    ensures Sse.LastId(Items(marshal, ls), lastId) == Show(EndOf(ls))
  {
    LastIdFirst(ItemOf(marshal, ls[0]), Items(marshal, ls[1..]), lastId);
    if |ls| > 1 {
      LastIdOf(marshal, ls[1..], Sse.IdAfter(ItemOf(marshal, ls[0]), lastId));
    }
  }

  lemma {:induction false} LastIdFirst(item: Sse.Item, items: seq<Sse.Item>, lastId: string)
    ensures Sse.LastId([item] + items, lastId) == Sse.LastId(items, Sse.IdAfter(item, lastId))
  {
    assert ([item] + items)[1..] == items;
  }

  /** The ID is the end of the last line, if that line has one and every event fit its buffer. */
  lemma {:induction false} ResumesAt(marshal: Marshal, file: string, o: nat, parts: seq<Part>, got: seq<Line>,
                                     rounds: nat)
    requires OneLineJson(marshal) && got == LinesOf(parts) && Fits(AsEvent(marshal), parts)
    requires got != [] && got[|got| - 1].offset > 0 && got[|got| - 1].size > 0 && EndOf(got) <= MAX_INT
    ensures Resumed(marshal, file, o, parts, rounds) == Serve(STREAM, Progress(EndOf(got), [], 0, 0), file, rounds)
  {
    AllHeard(marshal, parts, got);
    LastIdOf(marshal, got, "");
    ConnectResumes(Again(marshal, o, parts), EndOf(got), Up(file));
  }

  lemma {:induction false} AllHeard(marshal: Marshal, parts: seq<Part>, got: seq<Line>)
    requires OneLineJson(marshal) && got == LinesOf(parts) && Fits(AsEvent(marshal), parts)
    ensures First(marshal, parts).events == Sse.Received(Items(marshal, got), "")
    ensures First(marshal, parts).lastId == if got == [] then "" else Sse.LastId(Items(marshal, got), "")
  {
    AllLand(marshal, parts);
    assert parts[..|parts|] == parts;
    ListenHears(marshal, Sse.CONNECTED, parts, |Sent(marshal, parts)|);
    var events := Sse.Received(Items(marshal, got), "");
    assert [] + events == events;
  }

  /** Lines of which only the first may have no ID are heard as they are meant to be. */
  lemma {:induction false} TopHeard(marshal: Marshal, got: seq<Line>)
    requires got != [] && Named(got[1..]) && (got[0].offset > 0 ==> got[0].size > 0)
    ensures Sse.Received(Items(marshal, got), "") == Heard(marshal, got)
  {
    HeardReceived(marshal, got[1..], Sse.IdAfter(ItemOf(marshal, got[0]), ""));
    assert Items(marshal, got)[1..] == Items(marshal, got[1..]);
  }

  /** All of them are heard if and only if every event fits its buffer. */
  lemma {:induction false} HasHeardIff(marshal: Marshal, parts: seq<Part>, got: seq<Line>)
    requires OneLineJson(marshal) && got == LinesOf(parts)
    requires got != [] && Named(got[1..]) && (got[0].offset > 0 ==> got[0].size > 0)
    ensures HasHeard(marshal, parts) <==> Fits(AsEvent(marshal), parts)
  {
    if Fits(AsEvent(marshal), parts) {
      AllHeard(marshal, parts, got);
      TopHeard(marshal, got);
    } else {
      FewerHeard(marshal, parts);
      LinesOfTake(parts, 0);
    }
  }

  lemma FewerHeard(marshal: Marshal, parts: seq<Part>)
    requires OneLineJson(marshal) && !Fits(AsEvent(marshal), parts)
    ensures |First(marshal, parts).events| < |parts|
  {
    HearsAtMost(marshal, Sse.Reconnected(Sse.CONNECTED), parts, |Sent(marshal, parts)|);
    assert parts[..|parts|] == parts;
  }

  /** A client that got only the line at offset 0 starts again at the top. */
  lemma {:induction false} RestartsAt(marshal: Marshal, file: string, o: nat, parts: seq<Part>, l: Line, rounds: nat)
    requires OneLineJson(marshal) && o <= MAX_INT && l.offset <= 0
    requires LinesOf(parts) == [l] && Fits(AsEvent(marshal), parts)
    ensures Resumed(marshal, file, o, parts, rounds) == Serve(STREAM, Progress(o, [], 0, 0), file, rounds)
  {
    NamelessHeard(marshal, Sse.CONNECTED, parts, l);
    StreamStarts(o);
    assert Again(marshal, o, parts) == StreamRequest(o).(lastEventId := "");
  }

  /** The k-th line of a file. */
  lemma LineAtTop(file: string, o: nat, k: nat)
    requires o <= |file| && 0 < k <= |LinesFrom(file, o)|
    ensures var l := LinesFrom(file, o)[k - 1]; 0 <= l.offset && 0 < l.size && l.offset + l.size <= |file|
    ensures LinesFrom(file, o)[k - 1].offset == 0 ==> k == 1 && o == 0 && file[0] != NL
  {
    LinesAreLines(file, o, |file|);
    var all := LinesIn(file, o, |file|);
    assert IsLine(file, o, |file|, all[k - 1]);
    assert IsLine(file, o, |file|, all[0]);
    LineStart(file, o, |file|, all[k - 1]);
  }

  /** From the top the line at offset 0 is delivered first, so it is delivered again. */
  lemma {:induction false} TopAgain(file: string, rounds: nat)
    requires file != "" && file[0] != NL && Serve(STREAM, Progress(0, [], 0, 0), file, rounds).finished
    ensures var got := Serve(STREAM, Progress(0, [], 0, 0), file, rounds).delivered; got != [] && got[0].offset == 0
  {
    AtEndIff(file, 0);
    LandInside(file, 0);
    FirstLineStarts(file, 0, Land(file, 0).upTo);
    var q, more := ServeTakes(STREAM, Progress(0, [], 0, 0), file, rounds);
  }

  /** Coming back is a run from `e`. */
  ghost predicate ComesBack(marshal: Marshal, file: string, o: nat, parts: seq<Part>, e: nat) {
    forall rounds :: Resumed(marshal, file, o, parts, rounds) == Serve(STREAM, Progress(e, [], 0, 0), file, rounds)
  }

  /** With an ID, coming back is a run from the end of the last line, and the rest is the lines from there. */
  lemma CutAfter(marshal: Marshal, file: string, o: nat, k: nat, parts: seq<Part>, rest: seq<Line>) returns (e: nat)
    requires OneLineJson(marshal) && o <= |file| <= MAX_INT && 0 < k <= |LinesFrom(file, o)|
    requires LinesFrom(file, o)[k - 1].offset > 0 && Fits(AsEvent(marshal), parts)
    requires LinesOf(parts) == LinesFrom(file, o)[..k] && rest == LinesFrom(file, o)[k..]
    ensures LinesOf(parts) != [] && e == EndOf(LinesOf(parts))
    ensures 0 < e <= |file| && (e == |file| || file[e] == NL)
    ensures LinesFrom(file, e) == rest && ComesBack(marshal, file, o, parts, e)
  {
    e := CutPlace(file, o, k, LinesOf(parts), rest);
    ComesBackAt(marshal, file, o, parts, LinesOf(parts), e);
  }

  lemma CutPlace(file: string, o: nat, k: nat, got: seq<Line>, rest: seq<Line>) returns (e: nat)
    requires o <= |file| && 0 < k <= |LinesFrom(file, o)|
    requires got == LinesFrom(file, o)[..k] && rest == LinesFrom(file, o)[k..]
    ensures got != [] && got[|got| - 1] == LinesFrom(file, o)[k - 1] && got[|got| - 1].size > 0 && e == EndOf(got)
    ensures 0 < e <= |file| && (e == |file| || file[e] == NL) && LinesFrom(file, e) == rest
  {
    LineAtTop(file, o, k);
    LinesCut(file, o, |file|, k);
    e := EndOf(got);
  }

  lemma {:induction false} ComesBackAt(marshal: Marshal, file: string, o: nat, parts: seq<Part>, got: seq<Line>, e: nat)
    requires OneLineJson(marshal) && got == LinesOf(parts) && Fits(AsEvent(marshal), parts)
    requires got != [] && got[|got| - 1].offset > 0 && got[|got| - 1].size > 0 && e == EndOf(got) <= MAX_INT
    ensures ComesBack(marshal, file, o, parts, e)
  {
    forall rounds
      ensures Resumed(marshal, file, o, parts, rounds) == Serve(STREAM, Progress(e, [], 0, 0), file, rounds)
    {
      ResumesAt(marshal, file, o, parts, got, rounds);
    }
  }

  /** Only the first of some first lines may have no ID. */
  lemma RestNamed(file: string, o: nat, k: nat, got: seq<Line>)
    requires o <= |file| && 0 < k <= |LinesFrom(file, o)| && got == LinesFrom(file, o)[..k]
    ensures Named(got[1..]) && got[0].size > 0
  {
    forall i | 0 <= i < |got[1..]| ensures got[1..][i].offset > 0 && got[1..][i].size > 0 {
      LineAtTop(file, o, i + 2);
    }
    LineAtTop(file, o, 1);
  }

  /** When coming back is enough: over a file at rest, a client cut off after k lines has heard them and gets exactly
      the rest from its next connection if and only if each event fit its buffer, the last line does not lie at offset
      0, where a line has no ID, and the file is readable from the end of that line. */
  lemma {:induction false} ResumeIff(marshal: Marshal, file: string, o: nat, k: nat, parts: seq<Part>)
    requires OneLineJson(marshal) && o <= |file| <= MAX_INT && 0 < k <= |LinesFrom(file, o)|
    requires LinesOf(parts) == LinesFrom(file, o)[..k]
    ensures var all := LinesFrom(file, o);
      && 0 < EndOf(all[..k]) <= |file|
      && (HasHeard(marshal, parts) && Gets(marshal, file, o, parts, all[k..])
          <==> Fits(AsEvent(marshal), parts) && all[k - 1].offset > 0 && Readable(file, EndOf(all[..k])))
  {
    var all := LinesFrom(file, o);
    LineAtTop(file, o, k);
    RestNamed(file, o, k, all[..k]);
    HasHeardIff(marshal, parts, all[..k]);
    if Fits(AsEvent(marshal), parts) {
      if all[k - 1].offset > 0 {
        var e := CutAfter(marshal, file, o, k, parts, all[k..]);
        GetsMeets(marshal, file, o, parts, e, all[k..]);
      } else {
        assert all[..k] == [all[0]];
        NotAgain(marshal, file, parts, all);
      }
    }
  }

  lemma GetsMeets(marshal: Marshal, file: string, o: nat, parts: seq<Part>, e: nat, rest: seq<Line>)
    requires rest == LinesFrom(file, e)
    requires ComesBack(marshal, file, o, parts, e)
    ensures Gets(marshal, file, o, parts, rest) <==> Readable(file, e)
  {
    WholeRunIff(STREAM, file, e);
    if Gets(marshal, file, o, parts, rest) {
      var rounds :| Ends(Resumed(marshal, file, o, parts, rounds), rest);
      assert Meets(STREAM, file, e, rounds);
    }
    if rounds :| Meets(STREAM, file, e, rounds) {
      assert Ends(Resumed(marshal, file, o, parts, rounds), rest);
    }
  }

  lemma {:induction false} NotAgain(marshal: Marshal, file: string, parts: seq<Part>, all: seq<Line>)
    requires OneLineJson(marshal) && file != "" && file[0] != NL
    requires all == LinesFrom(file, 0) && all != [] && all[0].offset == 0
    requires LinesOf(parts) == [all[0]] && Fits(AsEvent(marshal), parts)
    ensures !Gets(marshal, file, 0, parts, all[1..])
  {
    LinesAreLines(file, 0, |file|);
    forall rounds | Resumed(marshal, file, 0, parts, rounds).finished
      ensures !Ends(Resumed(marshal, file, 0, parts, rounds), all[1..])
    {
      RestartsAt(marshal, file, 0, parts, all[0], rounds);
      TopAgain(file, rounds);
      assert IsLine(file, 0, |file|, all[0]);
      assert |all| > 1 ==> all[1..][0] == all[1] && all[0].offset + all[0].size < all[1].offset;
    }
  }

  /** One of these lines starts right after `at`. */
  ghost predicate Missing(rest: seq<Line>, at: nat) {
    exists i :: 0 <= i < |rest| && rest[i].offset == at + 1
  }

  /** In the other case the missing lines never come: the connection stays before a newline whose successor is out of
      reach, and the line after that newline is not delivered in any number of reads. */
  lemma ResumeStalls(marshal: Marshal, file: string, o: nat, k: nat, parts: seq<Part>) returns (at: nat)
    requires OneLineJson(marshal) && o <= |file| <= MAX_INT && 0 < k <= |LinesFrom(file, o)|
    requires LinesOf(parts) == LinesFrom(file, o)[..k] && Fits(AsEvent(marshal), parts)
    requires LinesFrom(file, o)[k - 1].offset > 0
    requires EndOf(LinesFrom(file, o)[..k]) >= 0 && !Readable(file, EndOf(LinesFrom(file, o)[..k]))
    ensures var all := LinesFrom(file, o);
      Missing(all[k..], at) && forall rounds :: Stalls(Resumed(marshal, file, o, parts, rounds), at)
  {
    var all := LinesFrom(file, o);
    var e := CutAfter(marshal, file, o, k, parts, all[k..]);
    at := FindBarrier(file, e);
    LineAfterBarrier(file, e, at);
    forall rounds ensures Stalls(Resumed(marshal, file, o, parts, rounds), at) {
      NeverFinishes(STREAM, file, e, at, Progress(e, [], 0, 0), rounds);
    }
  }

  lemma LineAfterBarrier(file: string, o: nat, at: nat)
    requires Barrier(file, o, at)
    ensures Missing(LinesFrom(file, o), at)
  {
    assert file[at + 1] == Window(file, at + 1, CHUNK_SIZE - 1)[0];
    LinesSplit(file, o, at, |file|);
    FirstLineStarts(file, at + 1, |file|);
    assert LinesFrom(file, o)[|LinesIn(file, o, at)|] == LinesIn(file, at + 1, |file|)[0];
  }

  /** The smallest such file: three lines, the last one without its newline. The first connection delivers all of them;
      a client that got two comes back and gets nothing, however long it waits. */
  lemma {:induction false} ResumeStallsExample(marshal: Marshal, file: string, parts: seq<Part>, rounds: nat)
    requires OneLineJson(marshal) && file == "x\ny\nz"
    requires LinesOf(parts) == [Line("x", 0, 1), Line("y", 2, 1)] && Fits(AsEvent(marshal), parts)
    ensures LinesFrom(file, 0) == [Line("x", 0, 1), Line("y", 2, 1), Line("z", 4, 1)]
    ensures rounds > 10 ==> Serve(STREAM, Progress(0, [], 0, 0), file, rounds).delivered == LinesFrom(file, 0)
    ensures HasHeard(marshal, parts) && Resumed(marshal, file, 0, parts, rounds).delivered == []
  {
    ThreeLines(file);
    ShortShown(file, rounds);
    HasHeardIff(marshal, parts, LinesOf(parts));
    ResumesAt(marshal, file, 0, parts, LinesOf(parts), rounds);
    StalledAt(file, rounds);
  }

  lemma {:induction false} ShortShown(file: string, rounds: nat)
    requires 0 < |file| < CHUNK_SIZE
    ensures rounds > 2 * |file| ==> Serve(STREAM, Progress(0, [], 0, 0), file, rounds).delivered == LinesFrom(file, 0)
  {
    WholeRunExact(STREAM, file, 0, rounds);
  }

  lemma ThreeLines(file: string)
    requires file == "x\ny\nz"
    ensures LinesFrom(file, 0) == [Line("x", 0, 1), Line("y", 2, 1), Line("z", 4, 1)]
  {
    LinesSplit(file, 0, 1, 5);
    LinesSplit(file, 2, 3, 5);
    OneLetter(file, 0, "x");
    OneLetter(file, 2, "y");
    OneLetter(file, 4, "z");
  }

  lemma OneLetter(file: string, i: nat, text: string)
    requires i < |file| && |text| == 1 && text[0] == file[i] != NL
    ensures LinesIn(file, i, i + 1) == [Line(text, i, 1)]
  {
    assert file[i..i + 1] == text;
    LinesInRun(file, i, i + 1);
  }

  lemma {:induction false} StalledAt(file: string, rounds: nat)
    requires file == "x\ny\nz"
    ensures Serve(STREAM, Progress(3, [], 0, 0), file, rounds).delivered == []
  {
    if rounds > 0 {
      var p := Progress(3, [], 0, 0);
      StalledRead(file, p);
      ServeStep(STREAM, p, file, rounds, p, Stopped(NoData));
      StalledAt(file, rounds - 1);
    }
  }

  lemma {:induction false} StalledRead(file: string, p: Progress)
    requires file == "x\ny\nz" && p == Progress(3, [], 0, 0)
    ensures ReadLine(STREAM, p, Up(file)) == (p, Stopped(NoData))
  {
    var w := Window(file, 3, CHUNK_SIZE);
    assert w == "\nz" && w[1..] == "z";
    StockLands(p, file);
    AtEndIff(file, 3);
    StuckIff(STREAM, p, file);
  }

  /** When the first connection shows the whole file: coming back is enough if and only if each event fit its buffer,
      and the last line has an ID and is the last one of the file, or the file ends in a newline. */
  lemma {:induction false} ResumeWholeIff(marshal: Marshal, file: string, o: nat, k: nat, parts: seq<Part>)
    requires OneLineJson(marshal) && o <= |file| <= MAX_INT && 0 < k <= |LinesFrom(file, o)|
    requires LinesOf(parts) == LinesFrom(file, o)[..k] && Readable(file, o)
    ensures var all := LinesFrom(file, o);
      HasHeard(marshal, parts) && Gets(marshal, file, o, parts, all[k..])
      <==> Fits(AsEvent(marshal), parts) && all[k - 1].offset > 0
           && ((k == |all| && EndOf(all) == |file|) || file[|file| - 1] == NL)
  {
    ResumeIff(marshal, file, o, k, parts);
    ReadableOnward(file, o, k, LinesFrom(file, o));
  }

  lemma ReadableOnward(file: string, o: nat, k: nat, all: seq<Line>)
    requires o <= |file| && all == LinesFrom(file, o) && 0 < k <= |all| && Readable(file, o)
    requires EndOf(all[..k]) >= 0
    ensures Readable(file, EndOf(all[..k])) <==> (k == |all| && EndOf(all) == |file|) || file[|file| - 1] == NL
  {
    LinesCut(file, o, |file|, k);
    LineAtTop(file, o, k);
    assert all[..k][k - 1] == all[k - 1];
    var e: nat := EndOf(all[..k]);
    ReadableAfter(file, o, e);
    LastOfAll(file, o, k, all, e);
  }

  lemma LastOfAll(file: string, o: nat, k: nat, all: seq<Line>, e: nat)
    requires o <= |file| && all == LinesFrom(file, o) && 0 < k <= |all| && e == all[k - 1].offset + all[k - 1].size
    ensures e == |file| <==> k == |all| && EndOf(all) == |file|
  {
    LinesAreLines(file, o, |file|);
    if k < |all| {
      assert IsLine(file, o, |file|, all[k]);
    }
  }

  lemma ReadableAfter(file: string, o: nat, e: nat)
    requires Readable(file, o) && o < e <= |file| && (e == |file| || file[e] == NL)
    ensures Readable(file, e) <==> e == |file| || file[|file| - 1] == NL
  {
    if e < |file| {
      ReadableOn(file, e);
      if file[|file| - 1] != NL {
        BreaksDense(file, e);
      } else if Uncut(file, o) {
        DenseNearEnd(file, e);
      }
    }
  }
}
