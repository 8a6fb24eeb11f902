/** The keep-alive timer of Reader.Read over whole runs. */
module JournalPings {
  import opened Prelude
  import opened Journal
  import opened JournalReader
  import opened JournalRuns

  /** The clock never goes back: neither between reads nor between the two readings of one. */
  ghost predicate Timely(clock: int, events: seq<Event>)
    decreases |events|
  {
    events != [] ==>
      match events[0]
      case ReadCall(since, now, _) => clock <= since <= now && Timely(now, events[1..])
      case _ => Timely(clock, events[1..])
  }

  /** Something the client sees: an entry or a ping. */
  predicate Audible(s: Stamp) {
    s.how.Took? || s.how.Pinged?
  }

  /** Every ping comes at least 15 seconds after every entry and every ping before it. */
  ghost predicate Spaced(done: seq<Stamp>) {
    forall i, k :: 0 <= i < k < |done| && Audible(done[i]) && done[k].how.Pinged? ==>
      done[k].at - done[i].at >= 15_000_000_000
  }

  /** eofTime is the time of the last thing the client saw. */
  ghost predicate TimerSet(w: World, clock: int) {
    && (w.st.eofTime.Some? ==> w.st.eofTime.value <= clock)
    && forall i :: 0 <= i < |w.done| && Audible(w.done[i]) ==>
         w.st.eofTime.Some? && w.done[i].at <= w.st.eofTime.value
  }

  /** When a read with nothing buffered pings: on an event stream that may still deliver and has nothing to deliver, if
      nothing was sent yet or the last thing 15 seconds (in nanoseconds) ago or more. */
  lemma PingIff(env: Env, st: State, h: seq<Entry>, since: int, now: int)
    requires InBounds(st.journal, |h|) && st.pending == None
    ensures var (q, how) := Load(env, st, h, since, now);
      && (how == Pinged
          <==> env.format.EventStream? && !(st.useLimit && st.limit == 0) && Awaiting(env, st, h) == []
               && (st.eofTime == None || since - st.eofTime.value >= 15_000_000_000))
      && (how == Pinged ==> q.pending == Some(": ping\n\n") && q.eofTime == Some(now))
  {
    MoveTakes(env, st, h);
  }

  lemma ReadSpaces(env: Env, w: World, clock: int, since: int, now: int, bufLen: nat)
    requires Ready(w) && Spaced(w.done) && TimerSet(w, clock) && clock <= since <= now
    ensures var v := Apply(env, w, ReadCall(since, now, bufLen)); Spaced(v.done) && TimerSet(v, now)
  {
    var how := Load(env, w.st, w.h, since, now).1;
    var v := Apply(env, w, ReadCall(since, now, bufLen));
    if !how.AtEnd? {
      assert v.done == w.done + [Stamp(how, now)];
    }
  }

  lemma ReopenKeepsTimer(env: Env, w: World, head: nat, landing: nat)
    requires Ready(w) && Allowed(w, ReopenCall(head, landing))
    ensures var v := Apply(env, w, ReopenCall(head, landing));
      v.done == w.done && v.st.eofTime == w.st.eofTime
  {
  }

  /** Ping spacing over every run: for every interleaving of reads, appends, reopenings and clock readings,
      two pings are at least 15 seconds apart, and so are a ping and any entry read before it. */
  lemma {:induction false} PingsApart(env: Env, w: World, clock: int, events: seq<Event>)
    requires Ready(w) && AllAllowed(env, w, events) && Timely(clock, events)
    requires Spaced(w.done) && TimerSet(w, clock)
    ensures Spaced(Run(env, w, events).done)
    decreases |events|
  {
    if events != [] {
      var v := Apply(env, w, events[0]);
      match events[0]
      case Append(es) => PingsApart(env, v, clock, events[1..]);
      case ReadCall(since, now, bufLen) =>
        ReadSpaces(env, w, clock, since, now, bufLen);
        PingsApart(env, v, now, events[1..]);
      case ReopenCall(head, landing) =>
        ReopenKeepsTimer(env, w, head, landing);
        PingsApart(env, v, clock, events[1..]);
    }
  }

  /** From a reader just opened. */
  lemma {:induction false} PingsApartFromStart(env: Env, st0: State, h: seq<Entry>, clock: int, events: seq<Event>)
    requires InBounds(st0.journal, |h|) && st0.eofTime == None
    requires AllAllowed(env, Begin(st0, h), events) && Timely(clock, events)
    ensures Spaced(Run(env, Begin(st0, h), events).done)
  {
    PingsApart(env, Begin(st0, h), clock, events);
  }
}
