/** A tailing reader and a writer that has paused: does the reader get to the end? */
module CatchUp {
  import opened Text
  import opened Lines
  import opened FilesReader
  import opened Refills
  import opened Runs
  import opened Tailing
  import opened WholeRun

  /** The last newline of a file. */
  ghost predicate Final(file: string, z: nat) {
    z < |file| && file[z] == NL && NL !in file[z + 1..|file|]
  }

  /** No newline from `at` on has its successor out of reach, up to the last one. */
  ghost predicate Clear(file: string, at: nat, z: nat) {
    forall i :: at <= i < z ==> !Barrier(file, at, i)
  }

  /** What a reader has left to do: bytes count twice, buffered lines once. */
  function Ahead(w: World, z: nat): int {
    2 * (z - w.p.offset) + |w.p.buffer|
  }

  lemma FinalLast(file: string, z: nat, i: nat)
    requires Final(file, z) && i < |file| && file[i] == NL
    ensures i <= z
  {
    if i > z {
      NoNewlineAt(file, z + 1, |file|, i);
    }
  }

  /** A parked reader that has not caught up makes progress with every poll. */
  lemma PollMoves(cfg: Settings, o: nat, w: World, z: nat)
    requires Unlimited(cfg) && Parked(o, w) && Final(w.file, z) && Clear(w.file, w.p.offset, z) && Ahead(w, z) > 0
    ensures var v := Pass(cfg, w, Up(w.file));
      && v.file == w.file && Parked(o, v) && w.p.offset <= v.p.offset <= z
      && Ahead(v, z) < Ahead(w, z)
  {
    PassKeepsParked(cfg, o, w);
    FinalLast(w.file, z, w.p.offset);
    if w.p.buffer != [] {
      PassPops(cfg, w, Up(w.file));
    } else {
      FillMoves(cfg, o, w, z);
    }
  }

  lemma FillMoves(cfg: Settings, o: nat, w: World, z: nat)
    requires Unlimited(cfg) && Parked(o, w) && Final(w.file, z) && Clear(w.file, w.p.offset, z)
    requires w.p.buffer == [] && w.p.offset < z
    ensures var v := Pass(cfg, w, Up(w.file)); w.p.offset <= v.p.offset <= z && Ahead(v, z) < Ahead(w, z)
  {
    var at := w.p.offset;
    assert !Barrier(w.file, at, at);
    AtEndIff(w.file, at);
    DenseMoves(w.file, at);
    var e := LastNewline(w.file, at);
    FinalLast(w.file, z, e);
    PassFills(cfg, w);
    LinesInCount(w.file, at, e);
    var v := Pass(cfg, w, Up(w.file));
    assert |v.popped| + |v.p.buffer| == |Taken(v)|;
  }

  /** One that has caught up stays where it is. */
  lemma PollStays(cfg: Settings, o: nat, w: World, z: nat)
    requires Unlimited(cfg) && Parked(o, w) && Final(w.file, z) && Ahead(w, z) == 0 && w.p.offset <= z
    ensures w.popped == LinesIn(w.file, o, z) && Pass(cfg, w, Up(w.file)) == w
  {
    assert Taken(w) == w.popped;
    if Stock(w.p, Up(w.file)).Ok? {
      FinalStuck(w.p, w.file, z);
      StuckIff(cfg, w.p, w.file);
    }
  }

  lemma FinalStuck(p: Progress, file: string, z: nat)
    requires p.buffer == [] && p.offset == z > 0 && Final(file, z) && Stock(p, Up(file)).Ok?
    ensures Stock(p, Up(file)).value.offset == z
  {
    StockLands(p, file);
    ParkedLands(file, z);
    FinalLast(file, z, LastNewline(file, z));
  }

  /** Enough polls pop everything up to the last newline. */
  lemma {:induction false} PollsCatchUp(cfg: Settings, o: nat, w: World, z: nat, n: nat)
    requires Unlimited(cfg) && Parked(o, w) && Final(w.file, z) && Clear(w.file, w.p.offset, z) && n >= Ahead(w, z)
    ensures Run(cfg, w, Polls(n)).popped == LinesIn(w.file, o, z)
    decreases n
  {
    FinalLast(w.file, z, w.p.offset);
    if Ahead(w, z) == 0 {
      PollStays(cfg, o, w, z);
    } else {
      PollMoves(cfg, o, w, z);
    }
    if n > 0 {
      assert Polls(n)[1..] == Polls(n - 1);
      var v := Pass(cfg, w, Up(w.file));
      ClearOn(w.file, w.p.offset, v.p.offset, z);
      PollsCatchUp(cfg, o, v, z, n - 1);
    }
  }

  lemma ClearOn(file: string, at: nat, on: nat, z: nat)
    requires Clear(file, at, z) && at <= on
    ensures Clear(file, on, z)
  {
    forall i | on <= i < z ensures !Barrier(file, on, i) {
      assert !Barrier(file, at, i);
    }
  }

  /** A barrier is never passed. */
  lemma {:induction false} PollsBlocked(cfg: Settings, o: nat, w: World, at: nat, n: nat)
    requires Unlimited(cfg) && Parked(o, w) && Barrier(w.file, w.p.offset, at)
    ensures var v := Run(cfg, w, Polls(n)); v.file == w.file && Parked(o, v) && v.p.offset <= at
    decreases n
  {
    if n > 0 {
      assert Polls(n)[1..] == Polls(n - 1);
      PassKeepsParked(cfg, o, w);
      PollBlocked(cfg, o, w, at);
      PollsBlocked(cfg, o, Pass(cfg, w, Up(w.file)), at, n - 1);
    }
  }

  lemma PollBlocked(cfg: Settings, o: nat, w: World, at: nat)
    requires Unlimited(cfg) && Parked(o, w) && Barrier(w.file, w.p.offset, at)
    ensures Pass(cfg, w, Up(w.file)).p.offset <= at
  {
    if w.p.buffer != [] {
      PassPops(cfg, w, Up(w.file));
    } else {
      AtEndIff(w.file, w.p.offset);
      assert Window(w.file, w.p.offset, CHUNK_SIZE)[0] == NL;
      PassFills(cfg, w);
      BarrierHolds(w.file, w.p.offset, at, LastNewline(w.file, w.p.offset));
    }
  }

  /** So the line after it is not popped. */
  lemma BlockedMisses(o: nat, v: World, at: nat, z: nat)
    requires Parked(o, v) && v.p.offset <= at < z && Final(v.file, z) && Barrier(v.file, v.p.offset, at)
    ensures v.popped != LinesIn(v.file, o, z)
  {
    LinesUpto(v.file, o, v.p.offset, at);
    assert forall i :: 0 <= i < |v.popped| ==> v.popped[i] == Taken(v)[i];
    assert v.file[at + 1] == Window(v.file, at + 1, CHUNK_SIZE - 1)[0];
    LinesSplit(v.file, o, at, z);
    FirstLineStarts(v.file, at + 1, z);
    var first := |LinesIn(v.file, o, at)|;
    assert LinesIn(v.file, o, z)[first] == LinesIn(v.file, at + 1, z)[0];
    LinesAreLines(v.file, at + 1, z);
  }

  /** The reader gets to pop exactly the lines up to the last newline. */
  ghost predicate CatchesUp(cfg: Settings, o: nat, w: World, z: nat)
    requires o <= z <= |w.file|
  {
    exists n :: Run(cfg, w, Polls(n)).popped == LinesIn(w.file, o, z)
  }

  /** Every newline before `at` has its successor in reach. */
  ghost predicate Crossed(file: string, o: nat, at: nat) {
    at < |file| && forall i :: o <= i < at ==> Bridged(file, i)
  }

  /** A request that parks crosses only such newlines. */
  lemma LandingCrosses(file: string, o: nat, at: nat, e: nat)
    requires Crossed(file, o, at) && at <= e < |file| && e < at + CHUNK_SIZE && file[e] == NL
    ensures Crossed(file, o, e)
  {
    forall i | o <= i < e ensures Bridged(file, i) {
      if i >= at {
        assert Window(file, i + 1, CHUNK_SIZE - 1)[e - i - 1] == NL;
      }
    }
  }

  lemma CrossedGrows(file: string, grown: string, o: nat, at: nat)
    requires Crossed(file, o, at) && file <= grown
    ensures Crossed(grown, o, at)
  {
    forall i | o <= i < at ensures Bridged(grown, i) {
      assert Bridged(file, i);
      var w := Window(file, i + 1, CHUNK_SIZE - 1);
      assert Window(grown, i + 1, CHUNK_SIZE - 1)[..|w|] == w;
    }
  }

  lemma PassCrosses(cfg: Settings, o: nat, w: World)
    requires Parked(o, w) && Crossed(w.file, o, w.p.offset)
    ensures Crossed(w.file, o, Pass(cfg, w, Up(w.file)).p.offset)
  {
    if !LimitReached(cfg, w.p) {
      if w.p.buffer != [] {
        PassPops(cfg, w, Up(w.file));
      } else {
        PassFills(cfg, w);
        if !AtEnd(w.file, w.p.offset) {
          ParkedLands(w.file, w.p.offset);
          LandingCrosses(w.file, o, w.p.offset, LastNewline(w.file, w.p.offset));
        }
      }
    }
  }

  /** A reader that started on a newline has passed no newline whose successor is out of reach. */
  lemma {:induction false} RunCrosses(cfg: Settings, o: nat, w: World, events: seq<Event>)
    requires Parked(o, w) && Crossed(w.file, o, w.p.offset)
    ensures var v := Run(cfg, w, events); Crossed(v.file, o, v.p.offset)
    decreases |events|
  {
    if events != [] {
      ApplyKeepsParked(cfg, o, w, events[0]);
      match events[0] {
        case Write(bytes) => CrossedGrows(w.file, w.file + bytes, o, w.p.offset);
        case Poll => PassCrosses(cfg, o, w);
        case PollDown(outage) => PassDown(cfg, w, outage);
      }
      RunCrosses(cfg, o, Apply(cfg, w, events[0]), events[1..]);
    }
  }

  lemma ClearBehind(file: string, o: nat, at: nat, z: nat)
    requires o <= at && Crossed(file, o, at)
    ensures Clear(file, o, z) <==> Clear(file, at, z)
  {
    forall i | at <= i < z ensures Barrier(file, o, i) <==> Barrier(file, at, i) {
    }
  }

  /** Catching up: from a newline, whatever happened before, a reader without a limit that goes on polling while the
      writer pauses pops every line up to the last newline if and only if no newline of the file from its start on has
      its successor out of reach. */
  lemma {:induction false} CatchesUpIff(cfg: Settings, file: string, o: nat, events: seq<Event>, z: nat)
    requires Unlimited(cfg) && 0 < o < |file| && file[o] == NL
    requires Final(Run(cfg, Start(file, o), events).file, z)
    ensures o <= Run(cfg, Start(file, o), events).p.offset <= z
    ensures var w := Run(cfg, Start(file, o), events); CatchesUp(cfg, o, w, z) <==> Clear(w.file, o, z)
  {
    TailingExactlyOnce(cfg, file, o, events);
    var w := Run(cfg, Start(file, o), events);
    CatchesUpFrom(cfg, o, w, z);
    LinesInEmpty(file, o);
    RunCrosses(cfg, o, Start(file, o), events);
    ClearBehind(w.file, o, w.p.offset, z);
  }

  lemma CatchesUpFrom(cfg: Settings, o: nat, w: World, z: nat)
    requires Unlimited(cfg) && Parked(o, w) && Final(w.file, z)
    ensures o <= w.p.offset <= z && (CatchesUp(cfg, o, w, z) <==> Clear(w.file, w.p.offset, z))
  {
    FinalLast(w.file, z, w.p.offset);
    if Clear(w.file, w.p.offset, z) {
      PollsCatchUp(cfg, o, w, z, Ahead(w, z));
    } else {
      var at :| w.p.offset <= at < z && Barrier(w.file, w.p.offset, at);
      forall n: nat ensures Run(cfg, w, Polls(n)).popped != LinesIn(w.file, o, z) {
        PollsBlocked(cfg, o, w, at, n);
        BlockedMisses(o, Run(cfg, w, Polls(n)), at, z);
      }
    }
  }
}
