/** Runs of the journal reader: reads of any size, new entries, and reopened handles, in any order. */
module JournalRuns {
  import opened Prelude
  import opened Journal
  import opened JournalReader
  import Sse

  /** The history, the reader, and (for the statements only) its loads and the bytes it returned. */
  datatype World = World(h: seq<Entry>, st: State, done: seq<Stamp>, out: string)

  datatype Event =
    | Append(es: seq<Entry>)
    | ReadCall(since: int, now: int, bufLen: nat)
    | ReopenCall(head: nat, landing: nat)

  ghost predicate Ready(w: World) {
    InBounds(w.st.journal, |w.h|)
  }

  /** What an event may be: a reopened handle still holds the entry the old one stood on, and only forward
      readers are reopened. */
  ghost predicate Allowed(w: World, e: Event) {
    e.ReopenCall? ==>
      && e.head <= |w.h| && DistinctCursors(w.h) && !w.st.reverse
      && (w.st.journal.pos.On? ==> e.head <= w.st.journal.pos.at)
  }

  function Apply(env: Env, w: World, e: Event): (v: World)
    requires Ready(w) && Allowed(w, e)
    ensures Ready(v)
  {
    match e
    case Append(es) => w.(h := w.h + es)
    case ReadCall(since, now, bufLen) =>
      var (q, how, r) := ReadFrom(env, w.st, w.h, since, now, bufLen);
      if r == None then w.(st := q)
      else w.(st := q, done := w.done + [Stamp(how, now)], out := w.out + r.value)
    case ReopenCall(head, landing) =>
      match Reopen(env, w.st, w.h, head, landing)
      case Err(_) => w
      case Ok(q) => w.(st := q)
  }

  ghost predicate AllAllowed(env: Env, w: World, events: seq<Event>)
    requires Ready(w)
    decreases |events|
  {
    events != [] ==> Allowed(w, events[0]) && AllAllowed(env, Apply(env, w, events[0]), events[1..])
  }

  function Run(env: Env, w: World, events: seq<Event>): (v: World)
    requires Ready(w) && AllAllowed(env, w, events)
    ensures Ready(v)
    decreases |events|
  {
    if events == [] then w else Run(env, Apply(env, w, events[0]), events[1..])
  }

  /** The entries taken, in order. */
  function Log(done: seq<Stamp>): seq<nat> {
    if done == [] then []
    else
      var last := done[|done| - 1].how;
      Log(done[..|done| - 1]) + if last.Took? then [last.index] else []
  }

  /** The text of everything loaded, in order. */
  function Rendered(env: Env, h: seq<Entry>, done: seq<Stamp>): string {
    if done == [] then ""
    else
      var last := done[|done| - 1].how;
      Rendered(env, h, done[..|done| - 1]) + LoadText(env, h, last)
  }

  function LoadText(env: Env, h: seq<Entry>, how: Loaded): string {
    match how
    case Took(i) => if i < |h| then FormatEntry(env.format, h[i]) else ""
    case Pinged => PING
    case Kept => ""
    case AtEnd => ""
  }

  function PendingText(st: State): string {
    match st.pending case None => "" case Some(s) => s
  }

  /** Every entry loaded is in the history. */
  ghost predicate LoadsInside(h: seq<Entry>, done: seq<Stamp>) {
    forall k :: 0 <= k < |done| && done[k].how.Took? ==> done[k].how.index < |h|
  }

  /** The handle stands on an entry its matches select, and its match list is what the recorded match
      functions build. */
  ghost predicate Consistent(env: Env, st: State, h: seq<Entry>) {
    && st.journal.matches == Replay(st.matchFns)
    && (st.journal.pos.On? && st.journal.pos.at < |h| ==> env.filter(st.journal.matches, h[st.journal.pos.at]))
  }

  /** Entries taken and entries still to come are what the first state had before it, and the limit counts
      down with them. */
  ghost predicate EntriesKept(env: Env, st0: State, w: World) {
    && Ready(w) && InBounds(st0.journal, |w.h|) && Consistent(env, w.st, w.h)
    && w.st.reverse == st0.reverse
    && Awaiting(env, st0, w.h) == Log(w.done) + Awaiting(env, w.st, w.h)
    && w.st.useLimit == st0.useLimit && (st0.useLimit ==> w.st.limit + |Log(w.done)| == st0.limit)
  }

  /** The bytes returned and still buffered are the text of the loads. */
  ghost predicate TextKept(env: Env, st0: State, w: World) {
    LoadsInside(w.h, w.done) && PendingText(st0) + Rendered(env, w.h, w.done) == w.out + PendingText(w.st)
  }

  /** The account of a run that started in `st0`. */
  ghost predicate Account(env: Env, st0: State, w: World) {
    EntriesKept(env, st0, w) && TextKept(env, st0, w)
  }

  lemma {:induction false} RenderedGrow(env: Env, h: seq<Entry>, grown: seq<Entry>, done: seq<Stamp>)
    requires h <= grown && LoadsInside(h, done)
    ensures Rendered(env, grown, done) == Rendered(env, h, done)
    decreases |done|
  {
    if done != [] {
      RenderedGrow(env, h, grown, done[..|done| - 1]);
    }
  }

  /** New entries come last for a forward reader and do not concern one that reads backwards. */
  lemma AwaitingGrow(env: Env, st: State, h: seq<Entry>, es: seq<Entry>)
    requires InBounds(st.journal, |h|)
    ensures Awaiting(env, st, h + es)
         == Awaiting(env, st, h)
            + if st.reverse then [] else Visible(env.filter, st.journal.matches, h + es, |h|, |h + es|)
  {
    var j, grown := st.journal, h + es;
    if st.reverse {
      VisibleGrow(env.filter, j.matches, h, grown, j.head, j.pos.at);
    } else {
      VisibleSplit(env.filter, j.matches, grown, After(j.pos), |h|, |grown|);
      VisibleGrow(env.filter, j.matches, h, grown, After(j.pos), |h|);
    }
  }

  lemma AppendKeepsEntries(env: Env, st0: State, w: World, es: seq<Entry>)
    requires EntriesKept(env, st0, w) && st0.journal.matches == w.st.journal.matches
    ensures EntriesKept(env, st0, w.(h := w.h + es))
  {
    AwaitingGrow(env, st0, w.h, es);
    AwaitingGrow(env, w.st, w.h, es);
    var grown := w.h + es;
    var more := if st0.reverse then [] else Visible(env.filter, st0.journal.matches, grown, |w.h|, |grown|);
    Regroup(Log(w.done), Awaiting(env, w.st, w.h), more);
  }

  lemma AppendKeepsText(env: Env, st0: State, w: World, es: seq<Entry>)
    requires TextKept(env, st0, w)
    ensures TextKept(env, st0, w.(h := w.h + es))
  {
    RenderedGrow(env, w.h, w.h + es, w.done);
  }

  lemma AppendKeeps(env: Env, st0: State, w: World, es: seq<Entry>)
    requires Account(env, st0, w) && st0.journal.matches == w.st.journal.matches
    ensures Account(env, st0, w.(h := w.h + es))
  {
    AppendKeepsEntries(env, st0, w, es);
    AppendKeepsText(env, st0, w, es);
  }

  lemma {:induction false} LogSnoc(env: Env, h: seq<Entry>, done: seq<Stamp>, s: Stamp)
    ensures Log(done + [s]) == Log(done) + if s.how.Took? then [s.how.index] else []
    ensures Rendered(env, h, done + [s]) == Rendered(env, h, done) + LoadText(env, h, s.how)
  {
    assert (done + [s])[..|done|] == done;
  }

  /** Reading moves text from the load to the caller, through the buffer. */
  lemma ReadMovesText(env: Env, st: State, h: seq<Entry>, since: int, now: int, bufLen: nat)
    requires InBounds(st.journal, |h|)
    ensures var (q, how, r) := ReadFrom(env, st, h, since, now, bufLen);
      r.Some? ==> PendingText(st) + LoadText(env, h, how) == r.value + PendingText(q)
  {
    var (loaded, how) := Load(env, st, h, since, now);
    if how != AtEnd {
      CopySplits(loaded.pending.value, bufLen);
      LoadMovesText(env, st, h, since, now);
    }
  }

  lemma CopySplits(pending: string, bufLen: nat)
    ensures var (out, rest) := JournalReader.Copy(pending, bufLen);
      out + (match rest case None => "" case Some(s) => s) == pending
  {
    var k := Min(bufLen, |pending|);
    assert pending[..k] + pending[k..] == pending && pending[..k] + "" == pending[..k];
  }

  lemma LoadMovesText(env: Env, st: State, h: seq<Entry>, since: int, now: int)
    requires InBounds(st.journal, |h|)
    ensures var (loaded, how) := Load(env, st, h, since, now);
      PendingText(loaded) == PendingText(st) + LoadText(env, h, how)
  {
    var (loaded, how) := Load(env, st, h, since, now);
    var text := LoadText(env, h, how);
    assert "" + text == text && PendingText(st) + "" == PendingText(st);
  }

  /** Taking an entry leaves the handle on one its matches select. */
  lemma LoadConsistent(env: Env, st: State, h: seq<Entry>, since: int, now: int)
    requires InBounds(st.journal, |h|) && Consistent(env, st, h)
    ensures Consistent(env, Load(env, st, h, since, now).0, h)
  {
    var j := st.journal;
    if !StaysPut(st, h) {
      var back, on := Behind(j, h, env.filter), Ahead(j, h, env.filter);
      if st.reverse && back != [] {
        VisibleCut(env.filter, j.matches, h, j.head, j.pos.at, |back| - 1);
      } else if !st.reverse && on != [] {
        VisibleCut(env.filter, j.matches, h, After(j.pos), |h|, 0);
      }
    }
  }

  function TakenBy(how: Loaded): seq<nat> {
    if how.Took? then [how.index] else []
  }

  /** What a read does to the entries awaited and to the limit. */
  lemma ReadTakes(env: Env, st: State, h: seq<Entry>, since: int, now: int, bufLen: nat)
    requires InBounds(st.journal, |h|)
    ensures var (q, how, r) := ReadFrom(env, st, h, since, now, bufLen);
      && q.reverse == st.reverse && q.useLimit == st.useLimit && q.journal.matches == st.journal.matches
      && Awaiting(env, st, h) == TakenBy(how) + Awaiting(env, q, h)
      && (st.useLimit ==> q.limit + |TakenBy(how)| == st.limit)
      && (r == None ==> TakenBy(how) == [])
  {
    var (loaded, how) := Load(env, st, h, since, now);
    LoadTakes(env, st, h, since, now);
    var q := ReadFrom(env, st, h, since, now, bufLen).0;
    assert Awaiting(env, q, h) == Awaiting(env, loaded, h);
  }

  /** A step that takes `took` from what is awaited and adds it to the log keeps the account. */
  lemma EntriesStep(env: Env, st0: State, w: World, v: World, took: seq<nat>)
    requires EntriesKept(env, st0, w) && v.h == w.h && Ready(v) && Consistent(env, v.st, v.h)
    requires v.st.reverse == w.st.reverse && v.st.useLimit == w.st.useLimit
    requires Awaiting(env, w.st, w.h) == took + Awaiting(env, v.st, w.h)
    requires Log(v.done) == Log(w.done) + took
    requires w.st.useLimit ==> v.st.limit + |took| == w.st.limit
    ensures EntriesKept(env, st0, v)
  {
    Regroup(Log(w.done), took, Awaiting(env, v.st, w.h));
  }

  lemma ReadLogs(env: Env, w: World, since: int, now: int, bufLen: nat)
    requires Ready(w) && Consistent(env, w.st, w.h)
    ensures var (q, how, r) := ReadFrom(env, w.st, w.h, since, now, bufLen);
      var v := Apply(env, w, ReadCall(since, now, bufLen));
      && v.h == w.h && v.st == q && Consistent(env, q, w.h) && q.journal.matches == w.st.journal.matches
      && Log(v.done) == Log(w.done) + TakenBy(how)
  {
    LoadConsistent(env, w.st, w.h, since, now);
    ReadTakes(env, w.st, w.h, since, now, bufLen);
    var how := ReadFrom(env, w.st, w.h, since, now, bufLen).1;
    LogSnoc(env, w.h, w.done, Stamp(how, now));
    assert Log(w.done) + [] == Log(w.done);
  }

  lemma ReadKeepsEntries(env: Env, st0: State, w: World, since: int, now: int, bufLen: nat)
    requires EntriesKept(env, st0, w)
    ensures EntriesKept(env, st0, Apply(env, w, ReadCall(since, now, bufLen)))
  {
    ReadTakes(env, w.st, w.h, since, now, bufLen);
    ReadLogs(env, w, since, now, bufLen);
    EntriesStep(env, st0, w, Apply(env, w, ReadCall(since, now, bufLen)),
                TakenBy(ReadFrom(env, w.st, w.h, since, now, bufLen).1));
  }

  lemma ReadKeepsText(env: Env, st0: State, w: World, since: int, now: int, bufLen: nat)
    requires Ready(w) && TextKept(env, st0, w)
    ensures TextKept(env, st0, Apply(env, w, ReadCall(since, now, bufLen)))
  {
    var (q, how, r) := ReadFrom(env, w.st, w.h, since, now, bufLen);
    ReadBrings(env, w.st, w.h, since, now, bufLen);
    if r.Some? {
      ReadMovesText(env, w.st, w.h, since, now, bufLen);
      TextStep(env, st0, w, q, Stamp(how, now), r.value);
    }
  }

  /** What is loaded is in the history; EOF leaves the buffer alone. */
  lemma ReadBrings(env: Env, st: State, h: seq<Entry>, since: int, now: int, bufLen: nat)
    requires InBounds(st.journal, |h|)
    ensures var (q, how, r) := ReadFrom(env, st, h, since, now, bufLen);
      (how.Took? ==> how.index < |h|) && (r == None ==> q == st)
  {
    LoadTakes(env, st, h, since, now);
  }

  lemma TextStep(env: Env, st0: State, w: World, q: State, s: Stamp, out: string)
    requires TextKept(env, st0, w) && (s.how.Took? ==> s.how.index < |w.h|)
    requires PendingText(w.st) + LoadText(env, w.h, s.how) == out + PendingText(q)
    ensures TextKept(env, st0, w.(st := q, done := w.done + [s], out := w.out + out))
  {
    LogSnoc(env, w.h, w.done, s);
    Shuffle(PendingText(st0), Rendered(env, w.h, w.done), LoadText(env, w.h, s.how), w.out,
            PendingText(w.st), out, PendingText(q));
  }

  lemma Shuffle(a: string, b: string, c: string, d: string, e: string, f: string, g: string)
    requires a + b == d + e && e + c == f + g
    ensures a + (b + c) == (d + f) + g
  {
    assert a + (b + c) == (a + b) + c == d + (e + c) == d + (f + g);
  }

  /** A reopened handle stands where the old one stood, with the same matches. */
  lemma ReopenReturns(env: Env, st: State, h: seq<Entry>, head: nat, landing: nat)
    requires InBounds(st.journal, |h|) && head <= |h| && DistinctCursors(h) && Consistent(env, st, h)
    requires st.journal.pos.On? ==> head <= st.journal.pos.at
    ensures st.journal.pos.On? ==>
      Reopen(env, st, h, head, landing) == Ok(st.(journal := st.journal.(head := head)))
    ensures st.journal.pos.Gap? ==> Reopen(env, st, h, head, landing).Err?
  {
    if st.journal.pos.On? {
      var k := st.journal.pos.at;
      var anew := Handle(head, Replay(st.matchFns), Gap(head));
      assert IndexOf(h, head, h[k].cursor) == k;
      assert SeekTo(anew, h, h[k].cursor, landing) == anew.(pos := Gap(k));
      assert Visible(env.filter, anew.matches, h, k, |h|)[0] == k;
    }
  }

  lemma ApplyKeeps(env: Env, st0: State, w: World, e: Event)
    requires Account(env, st0, w) && st0.journal.matches == w.st.journal.matches && Allowed(w, e)
    ensures var v := Apply(env, w, e);
      Account(env, st0, v) && v.st.journal.matches == w.st.journal.matches && w.h <= v.h
  {
    match e
    case Append(es) => AppendKeeps(env, st0, w, es);
    case ReadCall(since, now, bufLen) => ReadKeeps(env, st0, w, since, now, bufLen);
    case ReopenCall(head, landing) => ReopenKeeps(env, st0, w, head, landing);
  }

  lemma ReadKeeps(env: Env, st0: State, w: World, since: int, now: int, bufLen: nat)
    requires Account(env, st0, w)
    ensures var v := Apply(env, w, ReadCall(since, now, bufLen));
      Account(env, st0, v) && v.st.journal.matches == w.st.journal.matches && v.h == w.h
  {
    ReadLogs(env, w, since, now, bufLen);
    ReadKeepsEntries(env, st0, w, since, now, bufLen);
    ReadKeepsText(env, st0, w, since, now, bufLen);
  }

  lemma ReopenKeeps(env: Env, st0: State, w: World, head: nat, landing: nat)
    requires Account(env, st0, w) && Allowed(w, ReopenCall(head, landing))
    ensures var v := Apply(env, w, ReopenCall(head, landing));
      Account(env, st0, v) && v.st.journal.matches == w.st.journal.matches && v.h == w.h
  {
    ReopenReturns(env, w.st, w.h, head, landing);
    var v := Apply(env, w, ReopenCall(head, landing));
    assert Awaiting(env, v.st, w.h) == Awaiting(env, w.st, w.h);
  }

  /** Conservation over every run: what was taken, followed by what is still to come, is what the first state
      had before it, seen in the final history. So entries are delivered exactly once, in order and
      without gaps, however reads, appends and reopenings interleave. */
  lemma {:induction false} RunKeeps(env: Env, st0: State, w: World, events: seq<Event>)
    requires Account(env, st0, w) && st0.journal.matches == w.st.journal.matches && AllAllowed(env, w, events)
    ensures var v := Run(env, w, events);
      Account(env, st0, v) && v.st.journal.matches == w.st.journal.matches && w.h <= v.h
    decreases |events|
  {
    if events != [] {
      ApplyKeeps(env, st0, w, events[0]);
      RunKeeps(env, st0, Apply(env, w, events[0]), events[1..]);
    }
  }

  function Begin(st: State, h: seq<Entry>): World {
    World(h, st, [], "")
  }

  lemma {:induction false} DeliveredExactlyOnce(env: Env, st0: State, h: seq<Entry>, events: seq<Event>)
    requires InBounds(st0.journal, |h|) && Consistent(env, st0, h) && AllAllowed(env, Begin(st0, h), events)
    ensures Account(env, st0, Run(env, Begin(st0, h), events))
  {
    assert Awaiting(env, st0, h) == [] + Awaiting(env, st0, h);
    assert PendingText(st0) + "" == "" + PendingText(st0);
    RunKeeps(env, st0, Begin(st0, h), events);
  }

  /** EOF means everything: when a read returns EOF, the entries taken are all those the first state had
      before it in the history so far, or as many of them as its limit allows; and all their text is out. */
  lemma {:induction false} EofMeansAll(env: Env, st0: State, w: World, since: int, now: int, bufLen: nat)
    requires Account(env, st0, w) && ReadFrom(env, w.st, w.h, since, now, bufLen).2 == None
    ensures Log(w.done) == Limited(st0, Awaiting(env, st0, w.h))
    ensures w.out == PendingText(st0) + Rendered(env, w.h, w.done)
  {
    LoadTakes(env, w.st, w.h, since, now);
    assert w.st.pending == None && w.out + "" == w.out;
    assert Log(w.done) + [] == Log(w.done);
  }

  function Limited(st0: State, all: seq<nat>): seq<nat> {
    if st0.useLimit then all[..Min(st0.limit, |all|)] else all
  }

  /** The text of some entries. */
  function EntriesText(env: Env, h: seq<Entry>, log: seq<nat>): string {
    if log == [] then ""
    else EntriesText(env, h, log[..|log| - 1]) + LoadText(env, h, Took(log[|log| - 1]))
  }

  ghost predicate NoPings(done: seq<Stamp>) {
    forall k :: 0 <= k < |done| ==> !done[k].how.Pinged?
  }

  lemma {:induction false} RenderedByLog(env: Env, h: seq<Entry>, done: seq<Stamp>)
    requires NoPings(done)
    ensures Rendered(env, h, done) == EntriesText(env, h, Log(done))
    decreases |done|
  {
    if done != [] {
      var before, last := done[..|done| - 1], done[|done| - 1].how;
      RenderedByLog(env, h, before);
      if last.Took? {
        assert (Log(before) + [last.index])[..|Log(before)|] == Log(before);
      } else {
        assert Log(before) + [] == Log(before);
        assert Rendered(env, h, before) + "" == Rendered(env, h, before);
      }
    }
  }

  lemma {:induction false} RunWithoutPings(env: Env, w: World, events: seq<Event>)
    requires Ready(w) && AllAllowed(env, w, events) && !env.format.EventStream? && NoPings(w.done)
    ensures NoPings(Run(env, w, events).done)
    decreases |events|
  {
    if events != [] {
      RunWithoutPings(env, Apply(env, w, events[0]), events[1..]);
    }
  }

  /** The byte output does not depend on how the caller slices it: whatever the buffer sizes, and whatever
      was appended or reopened in between, a text or JSON reader that reaches EOF has returned exactly
      the formatted entries before its first position, up to its limit. */
  lemma {:induction false} OutputAtEof(env: Env, st0: State, h: seq<Entry>, events: seq<Event>, since: int, now: int,
                                       bufLen: nat)
    requires InBounds(st0.journal, |h|) && Consistent(env, st0, h) && AllAllowed(env, Begin(st0, h), events)
    requires !env.format.EventStream?
    requires var w := Run(env, Begin(st0, h), events); ReadFrom(env, w.st, w.h, since, now, bufLen).2 == None
    ensures InBounds(st0.journal, |Run(env, Begin(st0, h), events).h|)
    ensures var w := Run(env, Begin(st0, h), events);
      w.out == PendingText(st0) + EntriesText(env, w.h, Limited(st0, Awaiting(env, st0, w.h)))
  {
    var w := Run(env, Begin(st0, h), events);
    DeliveredExactlyOnce(env, st0, h, events);
    EofMeansAll(env, st0, w, since, now, bufLen);
    RunWithoutPings(env, Begin(st0, h), events);
    RenderedByLog(env, w.h, w.done);
  }

  /** What a load of an event stream is to its client. */
  function ItemsOf(env: Env, h: seq<Entry>, how: Loaded): seq<Sse.Item>
    requires env.format.EventStream?
  {
    match how
    case Took(i) =>
      if i < |h| then [Sse.Message(h[i].cursor, env.format.useCursorId, env.format.marshal(h[i]))] else []
    case Pinged => [Sse.Ping]
    case Kept => []
    case AtEnd => []
  }

  function Items(env: Env, h: seq<Entry>, done: seq<Stamp>): seq<Sse.Item>
    requires env.format.EventStream?
  {
    if done == [] then [] else Items(env, h, done[..|done| - 1]) + ItemsOf(env, h, done[|done| - 1].how)
  }

  /** The entries of a history can be sent as events: no line end in JSON or cursors, no NUL in cursors. */
  ghost predicate Sendable(env: Env, h: seq<Entry>)
    requires env.format.EventStream?
  {
    forall i :: 0 <= i < |h| ==>
      Sse.LineChars(env.format.marshal(h[i])) && Sse.LineChars(h[i].cursor) && Sse.NUL !in h[i].cursor
  }

  /** The event of an entry, with its cursor as ID if the stream has IDs. */
  function EntryEvent(env: Env, h: seq<Entry>, i: nat): seq<Sse.Event>
    requires env.format.EventStream?
  {
    if i < |h| then
      [Sse.Event("", env.format.marshal(h[i]), if env.format.useCursorId then h[i].cursor else "")]
    else []
  }

  function EntryEvents(env: Env, h: seq<Entry>, log: seq<nat>): seq<Sse.Event>
    requires env.format.EventStream?
  {
    if log == [] then [] else EntryEvents(env, h, log[..|log| - 1]) + EntryEvent(env, h, log[|log| - 1])
  }

  lemma {:induction false} EventsConcat(env: Env, h: seq<Entry>, a: seq<nat>, b: seq<nat>)
    requires env.format.EventStream?
    ensures EntryEvents(env, h, a + b) == EntryEvents(env, h, a) + EntryEvents(env, h, b)
    decreases |b|
  {
    if b == [] {
      assert a + b == a;
    } else {
      assert (a + b)[..|a + b| - 1] == a + b[..|b| - 1];
      EventsConcat(env, h, a, b[..|b| - 1]);
      Regroup(EntryEvents(env, h, a), EntryEvents(env, h, b[..|b| - 1]), EntryEvent(env, h, b[|b| - 1]));
    }
  }

  /** The item of a load prints as its text, and is heard as its entry, under the entry's cursor if the stream has
      IDs. */
  lemma {:induction false} LoadPrints(env: Env, h: seq<Entry>, how: Loaded, lastId: string)
    requires env.format.EventStream? && Sendable(env, h) && (env.format.useCursorId || lastId == "")
    requires how.Took? ==> how.index < |h|
    ensures Sse.PrintAll(ItemsOf(env, h, how)) == LoadText(env, h, how)
    ensures forall i :: 0 <= i < |ItemsOf(env, h, how)| ==> Sse.Printable(ItemsOf(env, h, how)[i])
    ensures Sse.Received(ItemsOf(env, h, how), lastId) == EntryEvents(env, h, TakenBy(how))
    ensures Sse.LastId(ItemsOf(env, h, how), lastId)
         == if how.Took? && env.format.useCursorId then h[how.index].cursor else lastId
  {
    var items := ItemsOf(env, h, how);
    if items != [] {
      assert items[1..] == [] && Sse.Print(items[0]) + "" == Sse.Print(items[0]);
    }
    if how.Took? {
      assert [how.index][..0] == [] && [] + EntryEvent(env, h, how.index) == EntryEvent(env, h, how.index);
    }
  }

  lemma {:induction false} ItemsRender(env: Env, h: seq<Entry>, done: seq<Stamp>)
    requires env.format.EventStream? && Sendable(env, h) && LoadsInside(h, done)
    ensures Sse.PrintAll(Items(env, h, done)) == Rendered(env, h, done)
    ensures forall i :: 0 <= i < |Items(env, h, done)| ==> Sse.Printable(Items(env, h, done)[i])
    decreases |done|
  {
    if done != [] {
      var before, last := done[..|done| - 1], done[|done| - 1].how;
      ItemsRender(env, h, before);
      LoadPrints(env, h, last, "");
      Sse.PrintAllConcat(Items(env, h, before), ItemsOf(env, h, last));
    }
  }

  lemma {:induction false} ItemsReceived(env: Env, h: seq<Entry>, done: seq<Stamp>)
    requires env.format.EventStream? && Sendable(env, h) && LoadsInside(h, done)
    ensures Sse.Received(Items(env, h, done), "") == EntryEvents(env, h, Log(done))
    ensures !env.format.useCursorId ==> Sse.LastId(Items(env, h, done), "") == ""
    ensures forall k :: 0 <= k < |Log(done)| ==> Log(done)[k] < |h|
    decreases |done|
  {
    if done != [] {
      var before, last := done[..|done| - 1], done[|done| - 1].how;
      ItemsReceived(env, h, before);
      LoadPrints(env, h, last, Sse.LastId(Items(env, h, before), ""));
      Sse.ReceivedConcat(Items(env, h, before), ItemsOf(env, h, last), "");
      EventsConcat(env, h, Log(before), TakenBy(last));
    }
  }

  lemma {:induction false} ItemsPrint(env: Env, h: seq<Entry>, done: seq<Stamp>)
    requires env.format.EventStream? && Sendable(env, h) && LoadsInside(h, done)
    ensures Sse.PrintAll(Items(env, h, done)) == Rendered(env, h, done)
    ensures forall i :: 0 <= i < |Items(env, h, done)| ==> Sse.Printable(Items(env, h, done)[i])
    ensures forall k :: 0 <= k < |Log(done)| ==> Log(done)[k] < |h|
    ensures Sse.Received(Items(env, h, done), "") == EntryEvents(env, h, Log(done))
  {
    ItemsRender(env, h, done);
    ItemsReceived(env, h, done);
  }

  /** End to end: at EOF the client of the event stream has heard every entry before the first position once,
      in order, with its cursor as ID if the stream has IDs; the pings in between leave no trace. */
  lemma {:induction false} ClientHearsEntries(env: Env, st0: State, h: seq<Entry>, events: seq<Event>, since: int,
                                              now: int, bufLen: nat)
    requires InBounds(st0.journal, |h|) && Consistent(env, st0, h) && AllAllowed(env, Begin(st0, h), events)
    requires env.format.EventStream? && st0.pending == None
    requires var w := Run(env, Begin(st0, h), events);
      Sendable(env, w.h) && ReadFrom(env, w.st, w.h, since, now, bufLen).2 == None
    ensures InBounds(st0.journal, |Run(env, Begin(st0, h), events).h|)
    ensures var w := Run(env, Begin(st0, h), events);
      var log := Limited(st0, Awaiting(env, st0, w.h));
      && (forall k :: 0 <= k < |log| ==> log[k] < |w.h|)
      && Sse.Interpret(Sse.CONNECTED, w.out).events == EntryEvents(env, w.h, log)
  {
    var w := Run(env, Begin(st0, h), events);
    WrittenAtEof(env, st0, h, events, since, now, bufLen, w);
    ClientHears(env, w.h, w.done);
  }

  /** At EOF what was written is the text of the loads, and these took the entries asked for. */
  lemma {:induction false} WrittenAtEof(env: Env, st0: State, h: seq<Entry>, events: seq<Event>, since: int, now: int,
                                        bufLen: nat,
                     w: World)
    requires InBounds(st0.journal, |h|) && Consistent(env, st0, h) && AllAllowed(env, Begin(st0, h), events)
    requires st0.pending == None && w == Run(env, Begin(st0, h), events)
    requires ReadFrom(env, w.st, w.h, since, now, bufLen).2 == None
    ensures w.out == Rendered(env, w.h, w.done) && LoadsInside(w.h, w.done)
    ensures InBounds(st0.journal, |w.h|) && Log(w.done) == Limited(st0, Awaiting(env, st0, w.h))
  {
    DeliveredExactlyOnce(env, st0, h, events);
    EofMeansAll(env, st0, w, since, now, bufLen);
    assert "" + Rendered(env, w.h, w.done) == Rendered(env, w.h, w.done);
  }

  lemma {:induction false} ClientHears(env: Env, h: seq<Entry>, done: seq<Stamp>)
    requires env.format.EventStream? && Sendable(env, h) && LoadsInside(h, done)
    ensures forall k :: 0 <= k < |Log(done)| ==> Log(done)[k] < |h|
    ensures Sse.Interpret(Sse.CONNECTED, Rendered(env, h, done)).events == EntryEvents(env, h, Log(done))
  {
    ItemsPrint(env, h, done);
    var items := Items(env, h, done);
    Sse.InterpretPrinted(Sse.CONNECTED, items);
    assert [] + Sse.Received(items, "") == Sse.Received(items, "");
  }

  /** The reads of a copy and the appends before them, as events. */
  function Script(ticks: seq<Tick>): seq<Event> {
    if ticks == [] then []
    else [Append(ticks[0].es), ReadCall(ticks[0].since, ticks[0].now, ticks[0].bufLen)] + Script(ticks[1..])
  }

  /** The world after a copy. */
  function Copying(env: Env, w: World, ticks: seq<Tick>): (v: World)
    requires Ready(w)
    ensures Ready(v)
  {
    var c := CopyAll(env, w.st, w.h, ticks);
    World(c.h, c.st, w.done + c.loads, w.out + c.out)
  }

  /** One read of a copy and the append before it. */
  function Ticked(env: Env, w: World, t: Tick): (v: World)
    requires Ready(w)
    ensures Ready(v)
  {
    Apply(env, Apply(env, w, Append(t.es)), ReadCall(t.since, t.now, t.bufLen))
  }

  lemma {:induction false} ScriptStep(env: Env, w: World, t: Tick, more: seq<Event>)
    requires Ready(w) && AllAllowed(env, Ticked(env, w, t), more)
    ensures var events := [Append(t.es), ReadCall(t.since, t.now, t.bufLen)] + more;
      AllAllowed(env, w, events) && Run(env, w, events) == Run(env, Ticked(env, w, t), more)
  {
    var events := [Append(t.es), ReadCall(t.since, t.now, t.bufLen)] + more;
    assert events[1..] == [ReadCall(t.since, t.now, t.bufLen)] + more && events[1..][1..] == more;
  }

  /** A copy stops at EOF, and goes on from the first read otherwise. */
  lemma CopyUnfolds(env: Env, w: World, t: Tick, more: seq<Tick>)
    requires Ready(w)
    ensures var r := ReadFrom(env, w.st, w.h + t.es, t.since, t.now, t.bufLen).2;
      Copying(env, w, [t] + more) == if r == None then Ticked(env, w, t) else Copying(env, Ticked(env, w, t), more)
  {
    var (q, how, r) := ReadFrom(env, w.st, w.h + t.es, t.since, t.now, t.bufLen);
    CopyAllStep(env, w.st, w.h, t, more);
    if r == None {
      assert w.done + [] == w.done && w.out + "" == w.out;
    } else {
      var c := CopyAll(env, q, w.h + t.es, more);
      Regroup(w.done, [Stamp(how, t.now)], c.loads);
      Regroup(w.out, r.value, c.out);
    }
  }

  /** The last read of a copy was EOF. */
  ghost predicate Ended(env: Env, v: World, t: Tick)
    requires Ready(v)
  {
    ReadFrom(env, v.st, v.h, t.since, t.now, t.bufLen).2 == None
  }

  /** EOF leaves everything as it is, so the same read is EOF again. */
  lemma EofStays(env: Env, w: World, t: Tick)
    requires Ready(w) && ReadFrom(env, w.st, w.h + t.es, t.since, t.now, t.bufLen).2 == None
    ensures Ended(env, Ticked(env, w, t), t)
  {
    LoadTakes(env, w.st, w.h + t.es, t.since, t.now);
  }

  /** A copy is a run of the first k reads, and of the appends before them; if EOF ended it, the last of them was
      EOF. */
  ghost predicate IsReads(env: Env, w: World, ticks: seq<Tick>, k: nat)
    requires Ready(w) && k <= |ticks|
  {
    && AllAllowed(env, w, Script(ticks[..k]))
    && Run(env, w, Script(ticks[..k])) == Copying(env, w, ticks)
    && (CopyAll(env, w.st, w.h, ticks).eof ==> k > 0 && Ended(env, Copying(env, w, ticks), ticks[k - 1]))
  }

  lemma {:induction false} CopyIsReads(env: Env, w: World, ticks: seq<Tick>) returns (k: nat)
    requires Ready(w)
    ensures k <= |ticks| && IsReads(env, w, ticks, k)
    decreases |ticks|
  {
    k := 0;
    if ticks == [] {
      assert w.done + [] == w.done && w.out + "" == w.out;
    } else {
      var t, more := ticks[0], ticks[1..];
      assert ticks == [t] + more;
      if ReadFrom(env, w.st, w.h + t.es, t.since, t.now, t.bufLen).2 == None {
        CopyStops(env, w, t, more);
      } else {
        k := CopyIsReads(env, Ticked(env, w, t), more);
        CopyGoesOn(env, w, t, more, k);
      }
      k := k + 1;
    }
  }

  lemma CopyStops(env: Env, w: World, t: Tick, more: seq<Tick>)
    requires Ready(w) && ReadFrom(env, w.st, w.h + t.es, t.since, t.now, t.bufLen).2 == None
    ensures IsReads(env, w, [t] + more, 1)
  {
    CopyUnfolds(env, w, t, more);
    ScriptStep(env, w, t, []);
    assert ([t] + more)[..1] == [t] && [t][1..] == [];
    EofStays(env, w, t);
  }

  lemma CopyGoesOn(env: Env, w: World, t: Tick, more: seq<Tick>, k: nat)
    requires Ready(w) && k <= |more| && IsReads(env, Ticked(env, w, t), more, k)
    requires ReadFrom(env, w.st, w.h + t.es, t.since, t.now, t.bufLen).2.Some?
    ensures IsReads(env, w, [t] + more, k + 1)
  {
    CopyUnfolds(env, w, t, more);
    CopyEof(env, w, t, more);
    ScriptStep(env, w, t, Script(more[..k]));
    assert ([t] + more)[..k + 1] == [t] + more[..k] && ([t] + more[..k])[1..] == more[..k];
    assert k > 0 ==> ([t] + more)[k] == more[k - 1];
  }

  lemma {:induction false} CopyEof(env: Env, w: World, t: Tick, more: seq<Tick>)
    requires Ready(w) && ReadFrom(env, w.st, w.h + t.es, t.since, t.now, t.bufLen).2.Some?
    ensures CopyAll(env, w.st, w.h, [t] + more).eof == CopyAll(env, Ticked(env, w, t).st, Ticked(env, w, t).h, more).eof
  {
    CopyAllStep(env, w.st, w.h, t, more);
  }

  /** Follow returns at once when its copy brought something, and fails if and only if it brought nothing, the journal
      was invalidated, and there is no current entry to come back to. */
  lemma FollowFailsIff(env: Env, c: Copied, wake: Wake, head: nat, landing: nat)
    requires InBounds(c.st.journal, |c.h|) && head <= |c.h|
    ensures c.out != "" ==> Follow(env, c, wake, head, landing) == (c.st, None)
    ensures Follow(env, c, wake, head, landing).1 == Some(NoCurrentEntry)
      <==> c.out == "" && wake == Invalidated && c.st.journal.pos.Gap?
  {
  }

  /** Calls of Follow, and appends between them. */
  datatype Call = Grow(es: seq<Entry>) | FollowCall(ticks: seq<Tick>, wake: Wake, head: nat, landing: nat)

  /** The copy of a call ends, and the saved cursor is still found when it reopens the journal. */
  ghost predicate CallAllowed(env: Env, w: World, c: Call)
    requires Ready(w)
  {
    c.FollowCall? ==>
      && CopyAll(env, w.st, w.h, c.ticks).eof && c.head <= |w.h|
      && (c.wake == Invalidated ==> Allowed(Copying(env, w, c.ticks), ReopenCall(c.head, c.landing)))
  }

  function CallOnce(env: Env, w: World, c: Call): (v: World)
    requires Ready(w) && CallAllowed(env, w, c)
    ensures Ready(v)
  {
    match c
    case Grow(es) => w.(h := w.h + es)
    case FollowCall(ticks, wake, head, landing) =>
      Copying(env, w, ticks).(st := Follow(env, CopyAll(env, w.st, w.h, ticks), wake, head, landing).0)
  }

  ghost predicate CallsAllowed(env: Env, w: World, calls: seq<Call>)
    requires Ready(w)
    decreases |calls|
  {
    calls != [] ==> CallAllowed(env, w, calls[0]) && CallsAllowed(env, CallOnce(env, w, calls[0]), calls[1..])
  }

  function CallAll(env: Env, w: World, calls: seq<Call>): (v: World)
    requires Ready(w) && CallsAllowed(env, w, calls)
    ensures Ready(v)
    decreases |calls|
  {
    if calls == [] then w else CallAll(env, CallOnce(env, w, calls[0]), calls[1..])
  }

  lemma CopyKeeps(env: Env, st0: State, w: World, ticks: seq<Tick>)
    requires Account(env, st0, w) && st0.journal.matches == w.st.journal.matches
    ensures var v := Copying(env, w, ticks);
      Account(env, st0, v) && v.st.journal.matches == w.st.journal.matches && w.h <= v.h
  {
    var k := CopyIsReads(env, w, ticks);
    RunKeeps(env, st0, w, Script(ticks[..k]));
  }

  lemma CallKeeps(env: Env, st0: State, w: World, c: Call)
    requires Account(env, st0, w) && st0.journal.matches == w.st.journal.matches && CallAllowed(env, w, c)
    ensures var v := CallOnce(env, w, c);
      Account(env, st0, v) && v.st.journal.matches == w.st.journal.matches && w.h <= v.h
  {
    match c
    case Grow(es) => AppendKeeps(env, st0, w, es);
    case FollowCall(ticks, wake, head, landing) =>
      CopyKeeps(env, st0, w, ticks);
      var copied := Copying(env, w, ticks);
      if CopyAll(env, w.st, w.h, ticks).out == "" && wake == Invalidated {
        ApplyKeeps(env, st0, copied, ReopenCall(head, landing));
        assert CallOnce(env, w, c) == Apply(env, copied, ReopenCall(head, landing));
      } else {
        assert CallOnce(env, w, c) == copied;
      }
  }

  /** Follow delivers each matching entry exactly once across reopenings: over any calls of Follow, with entries written
      and the clock moving during and between them, and invalidations after which the saved cursor is still found, the
      entries taken are a gapless beginning of those before the first position, and the match list is rebuilt as
      it was. */
  lemma {:induction false} FollowExactlyOnce(env: Env, st0: State, w: World, calls: seq<Call>)
    requires Account(env, st0, w) && st0.journal.matches == w.st.journal.matches && CallsAllowed(env, w, calls)
    ensures var v := CallAll(env, w, calls);
      && Account(env, st0, v) && v.st.journal.matches == st0.journal.matches && w.h <= v.h
      && Log(v.done) <= Awaiting(env, st0, v.h)
    decreases |calls|
  {
    if calls != [] {
      CallKeeps(env, st0, w, calls[0]);
      FollowExactlyOnce(env, st0, CallOnce(env, w, calls[0]), calls[1..]);
    }
  }
}
