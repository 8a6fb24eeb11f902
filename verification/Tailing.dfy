/** Tailing a file while another process appends to it. */
module Tailing {
  import opened Prelude
  import opened Text
  import opened Lines
  import opened FilesReader
  import opened Refills
  import opened Runs

  /** Nothing requested yet, and the first request will park on a newline. */
  ghost predicate Waiting(o: nat, w: World) {
    w.p.offset == o && w.p.buffer == [] && w.popped == [] && Parks(w.file, o)
  }

  lemma ParksGrows(file: string, grown: string, o: nat)
    requires Parks(file, o) && file <= grown
    ensures Parks(grown, o)
  {
    if o > 0 {
      var w, v := Window(file, o, CHUNK_SIZE), Window(grown, o, CHUNK_SIZE);
      assert v[..|w|] == w;
      var i :| 0 <= i < |w| && w[i] == NL;
      assert v[i] == NL;
    }
  }

  lemma FirstRequestParks(cfg: Settings, o: nat, w: World)
    requires Waiting(o, w)
    ensures var v := Pass(cfg, w, Up(w.file)); v.file == w.file && (Waiting(o, v) || Parked(o, v))
  {
    if !LimitReached(cfg, w.p) {
      PassFills(cfg, w);
      if !AtEnd(w.file, o) && o == 0 {
        LinesStopNewline(w.file, 0, CHUNK_SIZE - 1);
      }
    }
  }

  lemma {:induction false} RunParks(cfg: Settings, o: nat, w: World, events: seq<Event>)
    requires Waiting(o, w) || Parked(o, w)
    requires Tallied(cfg, w)
    ensures var v := Run(cfg, w, events);
      (Waiting(o, v) || Parked(o, v)) && Tallied(cfg, v) && w.file <= v.file
    decreases |events|
  {
    if events != [] {
      var v := Apply(cfg, w, events[0]);
      if Parked(o, w) {
        ApplyKeepsParked(cfg, o, w, events[0]);
      } else if events[0].Poll? {
        FirstRequestParks(cfg, o, w);
      } else if events[0].Write? {
        ParksGrows(w.file, v.file, o);
      }
      if !events[0].Write? {
        PassTally(cfg, w, if events[0].Poll? then Up(w.file) else Down(events[0].outage));
      }
      RunParks(cfg, o, v, events[1..]);
    }
  }

  /** Tailing from a newline is exactly-once under a concurrent writer: whatever the interleaving of
      appends of any bytes, passes and failed requests, the lines popped and still buffered are the
      lines between the start and the newline the reader stands on, each once and in order; what was
      delivered is what was popped after the first `skip` lines. */
  lemma {:induction false} TailingExactlyOnce(cfg: Settings, file: string, o: nat, events: seq<Event>)
    requires 0 < o < |file| && file[o] == NL
    ensures var w := Run(cfg, Start(file, o), events);
      Parked(o, w) && Tallied(cfg, w) && file <= w.file
  {
    assert Window(file, o, CHUNK_SIZE)[0] == NL;
    RunParks(cfg, o, Start(file, o), events);
    var w := Run(cfg, Start(file, o), events);
    if Waiting(o, w) {
      LinesInEmpty(w.file, o);
      assert Taken(w) == [];
    }
  }

  /** A popped line is whole: a maximal newline-free stretch of the file, with its newline written. */
  ghost predicate Whole(file: string, o: nat, l: Line) {
    o <= |file| && IsLine(file, o, |file|, l) && l.offset + l.size < |file|
  }

  /** No line popped so far is torn, and none overlaps or repeats another. */
  ghost predicate Intact(o: nat, w: World) {
    && (forall i :: 0 <= i < |w.popped| ==> Whole(w.file, o, w.popped[i]))
    && Apart(w.popped)
  }

  /** Delivered positions are sound. */
  lemma ParkedIntact(o: nat, w: World)
    requires Parked(o, w)
    ensures Intact(o, w)
  {
    var all := LinesIn(w.file, o, w.p.offset);
    LinesAreLines(w.file, o, w.p.offset);
    assert forall i :: 0 <= i < |w.popped| ==> w.popped[i] == Taken(w)[i] == all[i];
    forall i | 0 <= i < |w.popped| ensures Whole(w.file, o, w.popped[i]) {
      assert IsLine(w.file, o, w.p.offset, all[i]);
    }
  }

  function Polls(n: nat): seq<Event> {
    seq(n, i => Poll)
  }

  lemma {:induction false} PollsPop(cfg: Settings, w: World, n: nat)
    requires Unlimited(cfg) && n <= |w.p.buffer|
    ensures var v := Run(cfg, w, Polls(n));
      && v.file == w.file && v.p.offset == w.p.offset && |v.p.buffer| == |w.p.buffer| - n
      && Taken(v) == Taken(w)
    decreases n
  {
    if n > 0 {
      PassPops(cfg, w, Up(w.file));
      assert Polls(n)[1..] == Polls(n - 1);
      PollsPop(cfg, Pass(cfg, w, Up(w.file)), n - 1);
    }
  }

  /** As many polls as a request brings lines: all of them are popped, and nothing is buffered. */
  lemma PollsTake(cfg: Settings, w: World) returns (n: nat)
    requires Unlimited(cfg) && w.p.buffer == [] && !AtEnd(w.file, w.p.offset)
    requires LinesIn(w.file, w.p.offset, Land(w.file, w.p.offset).upTo) != []
    ensures var l, v := Land(w.file, w.p.offset), Run(cfg, w, Polls(n));
      && v.file == w.file && v.p.offset == l.offset && v.p.buffer == []
      && v.popped == w.popped + LinesIn(w.file, w.p.offset, l.upTo)
  {
    PassFills(cfg, w);
    var v := Pass(cfg, w, Up(w.file));
    n := 1 + |v.p.buffer|;
    assert Polls(n)[1..] == Polls(n - 1);
    PollsPop(cfg, v, n - 1);
    var u := Run(cfg, v, Polls(n - 1));
    assert Taken(u) == u.popped;
  }

  /** Polled until the first request's lines are out. */
  lemma TornAtEnd(cfg: Settings, file: string, o: nat) returns (n: nat)
    requires Unlimited(cfg) && !AtEnd(file, o)
    requires Land(file, o).upTo == |file| && file[|file| - 1] != NL
    ensures var w := Run(cfg, Start(file, o), Polls(n)); !Intact(o, w) && w.file == file
  {
    LandInside(file, o);
    LastLineEnds(file, o, |file|);
    n := PollsTake(cfg, Start(file, o));
    var w := Run(cfg, Start(file, o), Polls(n));
    assert w.popped == LinesIn(file, o, |file|);
    assert !Whole(file, o, w.popped[|w.popped| - 1]);
  }

  lemma {:induction false} PollsMore(cfg: Settings, w: World, n: nat)
    ensures Run(cfg, w, Polls(n + 1)) == Pass(cfg, Run(cfg, w, Polls(n)), Up(Run(cfg, w, Polls(n)).file))
    decreases n
  {
    assert Polls(n + 1)[1..] == Polls(n);
    if n > 0 {
      assert Polls(n)[1..] == Polls(n - 1);
      PollsMore(cfg, Pass(cfg, w, Up(w.file)), n - 1);
    }
  }

  /** Reading again the last byte of the line popped last. */
  lemma RereadOverlaps(cfg: Settings, w: World)
    requires Unlimited(cfg) && w.p.buffer == [] && w.popped != []
    requires w.p.offset < |w.file| && w.file[w.p.offset] != NL
    requires w.popped[|w.popped| - 1].offset + w.popped[|w.popped| - 1].size == w.p.offset + 1
    ensures !Apart(Pass(cfg, w, Up(w.file)).popped) && Pass(cfg, w, Up(w.file)).file == w.file
  {
    var at, last := w.p.offset, |w.popped| - 1;
    AtEndIff(w.file, at);
    LandInside(w.file, at);
    PassFills(cfg, w);
    FirstLineStarts(w.file, at, Land(w.file, at).upTo);
    var v := Pass(cfg, w, Up(w.file));
    assert v.popped[last + 1] == Taken(v)[last + 1];
    assert v.popped[last] == Taken(v)[last] == w.popped[last];
  }

  /** A whole window of CHUNK_SIZE bytes that does not end on a newline is torn: its last byte is read again. */
  lemma TornInside(cfg: Settings, file: string, o: nat) returns (n: nat)
    requires Unlimited(cfg) && o + CHUNK_SIZE <= |file| && file[o + CHUNK_SIZE - 1] != NL
    requires !Parks(file, o)
    ensures var w := Run(cfg, Start(file, o), Polls(n)); !Intact(o, w) && w.file == file
  {
    var e := o + CHUNK_SIZE;
    FullWindow(file, o);
    LastLineEnds(file, o, e);
    var m := PollsTake(cfg, Start(file, o));
    RereadOverlaps(cfg, Run(cfg, Start(file, o), Polls(m)));
    PollsMore(cfg, Start(file, o), m);
    n := m + 1;
  }

  /** From a start that does not park, some interleaving tears a line. */
  lemma TearsUnlessParked(cfg: Settings, file: string, o: nat) returns (events: seq<Event>)
    requires Unlimited(cfg) && !Parks(file, o)
    ensures !Intact(o, Run(cfg, Start(file, o), events))
    ensures |Run(cfg, Start(file, o), events).file| <= Max(|file|, o) + 1
  {
    if o >= |file| || (o == 0 && |file| < CHUNK_SIZE) {
      var pad := seq(if o >= |file| then o + 1 - |file| else 1, i => 'x');
      var grown := file + pad;
      assert o > 0 ==> Window(grown, o, CHUNK_SIZE) == ['x'];
      AtEndIff(grown, o);
      var n := TornAtEnd(cfg, grown, o);
      events := [Write(pad)] + Polls(n);
      assert events[1..] == Polls(n);
    } else {
      AtEndIff(file, o);
      var w := Window(file, o, CHUNK_SIZE);
      var n: nat;
      assert w[|w| - 1] == file[o + |w| - 1];
      if o + |w| == |file| && o > 0 {
        n := TornAtEnd(cfg, file, o);
      } else {
        n := TornInside(cfg, file, o);
      }
      events := Polls(n);
    }
  }

  /** Nothing popped so far is torn, overlaps or repeats, and nothing between was passed over: it is a beginning of the
      lines from `o`. */
  ghost predicate Exact(o: nat, w: World) {
    Intact(o, w) && w.popped <= LinesFrom(w.file, o)
  }

  lemma ParkedExact(o: nat, w: World)
    requires Parked(o, w)
    ensures Exact(o, w)
  {
    ParkedIntact(o, w);
    LinesSplit(w.file, o, w.p.offset, |w.file|);
    var all, rest := LinesIn(w.file, o, w.p.offset), LinesIn(w.file, w.p.offset + 1, |w.file|);
    assert w.popped <= all <= all + rest;
  }

  /** When tailing is safe: a reader without a limit never tears, overlaps, repeats or skips a line, under any
      interleaving with the writer, if and only if its first request parks on a newline. */
  lemma {:induction false} TailingSafeIff(cfg: Settings, file: string, o: nat)
    requires Unlimited(cfg)
    ensures (forall events :: Exact(o, Run(cfg, Start(file, o), events))) <==> Parks(file, o)
  {
    if Parks(file, o) {
      forall events ensures Exact(o, Run(cfg, Start(file, o), events)) {
        RunParks(cfg, o, Start(file, o), events);
        if Parked(o, Run(cfg, Start(file, o), events)) {
          ParkedExact(o, Run(cfg, Start(file, o), events));
        }
      }
    } else {
      var events := TearsUnlessParked(cfg, file, o);
    }
  }

  lemma PollOnce(cfg: Settings, w: World, l: Landing, line: Line)
    requires cfg == Settings(0, 0, true)
    requires w.p.buffer == [] && !AtEnd(w.file, w.p.offset) && Land(w.file, w.p.offset) == l
    requires l.upTo <= |w.file| && LinesIn(w.file, w.p.offset, l.upTo) == [line]
    ensures var v := Pass(cfg, w, Up(w.file));
      && v.file == w.file && v.p.offset == l.offset && v.p.buffer == []
      && v.popped == w.popped + [line] && v.delivered == w.delivered + [line]
  {
    PassFills(cfg, w);
    var v := Pass(cfg, w, Up(w.file));
    OneTaken(w.popped, line, v.popped, Rev(v.p.buffer));
    assert |Rev(v.p.buffer)| == |v.p.buffer| && v.popped[|w.popped|] == line;
  }

  lemma OneTaken(before: seq<Line>, line: Line, popped: seq<Line>, rest: seq<Line>)
    requires popped + rest == before + [line] && |popped| == |before| + 1
    ensures popped == before + [line] && rest == []
  {
    assert |popped + rest| == |popped| + |rest|;
    assert (popped + rest)[..|popped|] == popped;
  }

  lemma HeadOf(file: string, o: nat, text: string, rest: string)
    requires o <= |file| && file[o..] == text + rest
    ensures o + |text| <= |file| && file[o..o + |text|] == text
  {
    assert |file[o..]| == |text| + |rest|;
    assert file[o..][..|text|] == (text + rest)[..|text|] == text;
  }

  /** The bytes a poll finds after `o` hold one line, with its newline already written or not. */
  lemma PollTail(cfg: Settings, w: World, text: string, ended: bool)
    requires cfg == Settings(0, 0, true) && w.p.buffer == []
    requires text != "" && NL !in text && |text| + 1 < CHUNK_SIZE
    requires 0 < w.p.offset < |w.file| && w.file[w.p.offset..] == text + if ended then [NL] else ""
    ensures var v := Pass(cfg, w, Up(w.file));
      && v.file == w.file && v.p.offset == w.p.offset + |text| && v.p.buffer == []
      && v.delivered == w.delivered + [Line(text, w.p.offset, |text|)]
  {
    var o, e := w.p.offset, w.p.offset + |text|;
    var tail := text + if ended then [NL] else "";
    assert Window(w.file, o, CHUNK_SIZE) == tail == w.file[o..];
    assert w.file[o] == tail[0] == text[0];
    AtEndIff(w.file, o);
    HeadOf(w.file, o, text, if ended then [NL] else "");
    LinesInRun(w.file, o, e);
    if ended {
      assert w.file[e] == tail[|text|] && |w.file| == e + 1;
      assert tail[|text|] in tail;
      forall i | o <= i < e ensures w.file[i] != NL {
        NoNewlineAt(w.file, o, e, i);
      }
    }
    PollOnce(cfg, w, Landing(e, e), Line(text, o, |text|));
  }

  /** So a stream opened at the end of a file (cursor=END) is not safe: a line caught half written
      comes out as two. */
  lemma TailingFromEndTears(file: string)
    requires file != ""
    ensures var w := Run(Settings(0, 0, true), Start(file, |file|), [Write("b"), Poll, Write("c\n"), Poll]);
      && w.file == file + "bc\n"
      && w.delivered == [Line("b", |file|, 1), Line("c", |file| + 1, 1)]
      && LinesFrom(w.file, |file|) == [Line("bc", |file|, 2)]
  {
    var cfg := Settings(0, 0, true);
    TornSteps(cfg, file);
    RunFour(cfg, Start(file, |file|), Write("b"), Poll, Write("c\n"), Poll);
  }

  lemma TornSteps(cfg: Settings, file: string)
    requires cfg == Settings(0, 0, true) && file != ""
    ensures var begun := Apply(cfg, Apply(cfg, Start(file, |file|), Write("b")), Poll);
      var w := Apply(cfg, Apply(cfg, begun, Write("c\n")), Poll);
      && w.file == file + "bc\n"
      && w.delivered == [Line("b", |file|, 1), Line("c", |file| + 1, 1)]
      && LinesFrom(w.file, |file|) == [Line("bc", |file|, 2)]
  {
    var w1 := Apply(cfg, Start(file, |file|), Write("b"));
    assert w1.file[|file|..] == "b" + "";
    PollTail(cfg, w1, "b", false);
    var w3 := Apply(cfg, Apply(cfg, w1, Poll), Write("c\n"));
    WholeLineWritten(file, w3.file);
    PollTail(cfg, w3, "c", true);
  }

  lemma WholeLineWritten(file: string, grown: string)
    requires grown == file + "b" + "c\n"
    ensures grown == file + "bc\n" && grown[|file| + 1..] == "c" + [NL]
    ensures LinesFrom(grown, |file|) == [Line("bc", |file|, 2)]
  {
    var o := |file|;
    assert grown[o..o + 2] == "bc";
    LinesStopNewline(grown, o, o + 2);
    LinesInRun(grown, o, o + 2);
  }

  lemma {:induction false} RunFour(cfg: Settings, w: World, a: Event, b: Event, c: Event, d: Event)
    ensures Run(cfg, w, [a, b, c, d]) == Apply(cfg, Apply(cfg, Apply(cfg, Apply(cfg, w, a), b), c), d)
  {
    var v := Apply(cfg, Apply(cfg, w, a), b);
    assert [a, b, c, d][1..] == [b, c, d] && [b, c, d][1..] == [c, d];
    assert Run(cfg, w, [a, b, c, d]) == Run(cfg, v, [c, d]);
    assert [c, d][1..] == [d] && [d][1..] == [];
    assert Run(cfg, Apply(cfg, v, c), [d]) == Run(cfg, Apply(cfg, Apply(cfg, v, c), d), []);
  }
}
