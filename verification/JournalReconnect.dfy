/** Clients of the journal's event stream that are cut off and come back (api/v1/handlers.go): the last event ID is the
    cursor of the next request, and its skips are dropped. */
module JournalReconnect {
  import opened Prelude
  import opened Journal
  import opened JournalReader
  import opened JournalRuns
  import opened JournalWindows
  import Sse

  /** The journal, what the client asked for at first, and its parser. Streams have no limit and read forward. */
  datatype Link = Link(h: seq<Entry>, cursor: string, next: nat, prev: nat, client: Sse.Client)

  /** A connection: the oldest entry its handle sees, what happens while it lasts, and how many of the bytes written
      reach the client. */
  datatype Visit = Visit(head: nat, landing: nat, events: seq<Event>, received: nat)

  function Asked(link: Link): Window {
    if link.client.lastId == "" then Window(link.cursor, 0, link.next, link.prev, false)
    else Window(link.client.lastId, 0, 0, 0, false)
  }

  /** The reader of a connection. */
  function Opens(env: Env, ms: seq<MatchPair>, link: Link, v: Visit): (r: Result<State, OpenError>)
    requires v.head <= |link.h|
    ensures r.Ok? ==> InBounds(r.value.journal, |link.h|)
  {
    ApplyOpts(env, Fresh(v.head), link.h, RangeOptions(ms, Asked(link)), v.landing)
  }

  /** Streams carry cursors as IDs. */
  predicate Streams(env: Env) {
    env.format.EventStream? && env.format.useCursorId
  }

  /** Every entry has a cursor. */
  ghost predicate Labelled(h: seq<Entry>) {
    forall i :: 0 <= i < |h| ==> h[i].cursor != ""
  }

  /** What a connection needs: a journal it can open, events that can happen, entries that can be sent; and an entry the
      client named is still in the journal. */
  ghost predicate Possible(env: Env, ms: seq<MatchPair>, link: Link, v: Visit)
    requires Streams(env)
  {
    && v.head <= |link.h| && Labelled(link.h)
    && (link.client.lastId != "" ==> exists k :: Names(link.h, v.head, link.client.lastId, k))
    && var r := Opens(env, ms, link, v);
       r.Ok? ==>
         && AllAllowed(env, Begin(r.value, link.h), v.events)
         && Sendable(env, Run(env, Begin(r.value, link.h), v.events).h)
         && Labelled(Run(env, Begin(r.value, link.h), v.events).h)
  }

  function Session(env: Env, ms: seq<MatchPair>, link: Link, v: Visit): Link
    requires Streams(env) && Possible(env, ms, link, v)
  {
    match Opens(env, ms, link, v)
    case Err(_) => link
    case Ok(st) =>
      var w := Run(env, Begin(st, link.h), v.events);
      link.(h := w.h, client := Sse.Interpret(Sse.Reconnected(link.client), w.out[..Min(v.received, |w.out|)]))
  }

  /** The entries and pings that reach the client of a connection whole. */
  function Brought(env: Env, ms: seq<MatchPair>, link: Link, v: Visit): seq<Sse.Item>
    requires Streams(env) && Possible(env, ms, link, v)
  {
    match Opens(env, ms, link, v)
    case Err(_) => []
    case Ok(st) =>
      var w := Run(env, Begin(st, link.h), v.events);
      var items := Items(env, w.h, w.done);
      items[..Sse.Arrived(items, Min(v.received, |w.out|))]
  }

  predicate NoEntry(items: seq<Sse.Item>) {
    forall i :: 0 <= i < |items| ==> items[i].Ping?
  }

  /** Pings and no entry. */
  predicate OnlyPings(items: seq<Sse.Item>) {
    items != [] && NoEntry(items)
  }

  /** Where a forward reader goes on. */
  function NextIndex(st: State, h: seq<Entry>): nat {
    if StaysPut(st, h) then st.journal.pos.at else After(st.journal.pos)
  }

  /** A forward reader awaits every matching entry from some index on. */
  lemma {:induction false} ForwardAwaits(env: Env, st: State, h: seq<Entry>)
    requires InBounds(st.journal, |h|) && Consistent(env, st, h) && !st.reverse
    ensures Awaiting(env, st, h) == Visible(env.filter, st.journal.matches, h, NextIndex(st, h), |h|)
  {
    var v := Visible(env.filter, st.journal.matches, h, After(st.journal.pos), |h|);
    assert [] + v == v;
  }

  /** Each load is at most one item, so a beginning of the items is what a beginning of the loads brought. */
  lemma {:induction false} ItemsBefore(env: Env, h: seq<Entry>, done: seq<Stamp>, j: nat) returns (i: nat)
    requires env.format.EventStream? && j <= |Items(env, h, done)|
    ensures i <= |done| && Items(env, h, done[..i]) == Items(env, h, done)[..j]
    decreases |done|
  {
    if j == |Items(env, h, done)| {
      i := |done|;
      assert done[..i] == done;
    } else {
      var before := done[..|done| - 1];
      i := ItemsBefore(env, h, before, j);
      assert before[..i] == done[..i];
    }
  }

  lemma {:induction false} LogBefore(done: seq<Stamp>, i: nat)
    requires i <= |done|
    ensures Log(done[..i]) <= Log(done)
    decreases |done|
  {
    if i < |done| {
      var before := done[..|done| - 1];
      LogBefore(before, i);
      assert before[..i] == done[..i];
    } else {
      assert done[..i] == done;
    }
  }

  /** The cursor of the last of some entries, or none. */
  function LastName(h: seq<Entry>, log: seq<nat>): string {
    if log == [] || log[|log| - 1] >= |h| then "" else h[log[|log| - 1]].cursor
  }

  lemma LastNameAfter(h: seq<Entry>, log: seq<nat>, how: Loaded)
    requires how.Took? ==> how.index < |h|
    ensures LastName(h, log + TakenBy(how)) == if how.Took? then h[how.index].cursor else LastName(h, log)
  {
    if !how.Took? {
      assert log + TakenBy(how) == log;
    }
  }

  /** The last event ID of some loads is that of the last entry among them. */
  lemma {:induction false} ItemsLastId(env: Env, h: seq<Entry>, done: seq<Stamp>)
    requires Streams(env) && Sendable(env, h) && LoadsInside(h, done)
    ensures Sse.LastId(Items(env, h, done), "") == LastName(h, Log(done))
    decreases |done|
  {
    if done != [] {
      var before, last := done[..|done| - 1], done[|done| - 1].how;
      ItemsLastId(env, h, before);
      LoadPrints(env, h, last, Sse.LastId(Items(env, h, before), ""));
      Sse.ReceivedConcat(Items(env, h, before), ItemsOf(env, h, last), "");
      LastNameAfter(h, Log(before), last);
    }
  }

  lemma {:induction false} EventsGrow(env: Env, h: seq<Entry>, grown: seq<Entry>, log: seq<nat>)
    requires env.format.EventStream? && h <= grown && forall k :: 0 <= k < |log| ==> log[k] < |h|
    ensures EntryEvents(env, grown, log) == EntryEvents(env, h, log)
    decreases |log|
  {
    if log != [] {
      EventsGrow(env, h, grown, log[..|log| - 1]);
    }
  }

  /** The items of some loads are pings if and only if no entry was loaded. */
  lemma {:induction false} PingsLogNothing(env: Env, h: seq<Entry>, done: seq<Stamp>)
    requires env.format.EventStream? && LoadsInside(h, done)
    ensures Log(done) == [] <==> NoEntry(Items(env, h, done))
    decreases |done|
  {
    if done != [] {
      var before, last := done[..|done| - 1], done[|done| - 1].how;
      PingsLogNothing(env, h, before);
      LoadPings(env, h, last);
      PingsBoth(Items(env, h, before), ItemsOf(env, h, last));
    }
  }

  lemma LoadPings(env: Env, h: seq<Entry>, how: Loaded)
    requires env.format.EventStream? && (how.Took? ==> how.index < |h|)
    ensures NoEntry(ItemsOf(env, h, how)) <==> !how.Took?
  {
    if how.Took? {
      assert !ItemsOf(env, h, how)[0].Ping?;
    }
  }

  lemma PingsBoth(a: seq<Sse.Item>, b: seq<Sse.Item>)
    ensures NoEntry(a + b) <==> NoEntry(a) && NoEntry(b)
  {
    assert forall i :: 0 <= i < |a| ==> a[i] == (a + b)[i];
    assert forall i :: 0 <= i < |b| ==> b[i] == (a + b)[|a| + i];
  }

  /** A connection cut off after any byte was heard as some first entries its reader took; and after pings alone the
      client has no ID any more. */
  lemma ConnectionHears(env: Env, st: State, h: seq<Entry>, events: seq<Event>, w: World, client: Sse.Client, n: nat)
    returns (log: seq<nat>)
    requires Streams(env) && InBounds(st.journal, |h|) && Consistent(env, st, h) && st.pending == None
    requires AllAllowed(env, Begin(st, h), events) && w == Run(env, Begin(st, h), events)
    requires Sendable(env, w.h) && n <= |w.out|
    ensures log <= Log(w.done) && (forall k :: 0 <= k < |log| ==> log[k] < |w.h|)
    ensures var heard, items := Sse.Interpret(Sse.Reconnected(client), w.out[..n]), Items(env, w.h, w.done);
      var whole := items[..Sse.Arrived(items, n)];
      && heard.events == client.events + EntryEvents(env, w.h, log)
      && heard.lastId == (if whole == [] then client.lastId else LastName(w.h, log))
      && (log == [] <==> whole == [] || OnlyPings(whole))
  {
    OutIsPrinted(env, st, h, events, w, n);
    var items := Items(env, w.h, w.done);
    Sse.NewStreamCut(client, items, n);
    var whole := Sse.Arrived(items, n);
    var i := ItemsBefore(env, w.h, w.done, whole);
    log := Log(w.done[..i]);
    BeginningHeard(env, w.h, w.done, i);
    PingsLogNothing(env, w.h, w.done[..i]);
  }

  /** The bytes written are a beginning of the printed items. */
  lemma {:induction false} OutIsPrinted(env: Env, st: State, h: seq<Entry>, events: seq<Event>, w: World, n: nat)
    requires Streams(env) && InBounds(st.journal, |h|) && Consistent(env, st, h) && st.pending == None
    requires AllAllowed(env, Begin(st, h), events) && w == Run(env, Begin(st, h), events)
    requires Sendable(env, w.h) && n <= |w.out|
    ensures var items := Items(env, w.h, w.done);
      && LoadsInside(w.h, w.done) && (forall i :: 0 <= i < |items| ==> Sse.Printable(items[i]))
      && n <= |Sse.PrintAll(items)| && w.out[..n] == Sse.PrintAll(items)[..n]
  {
    DeliveredExactlyOnce(env, st, h, events);
    ItemsRender(env, w.h, w.done);
    assert "" + Rendered(env, w.h, w.done) == Rendered(env, w.h, w.done);
  }

  /** What is heard of the first i loads. */
  lemma {:induction false} BeginningHeard(env: Env, h: seq<Entry>, done: seq<Stamp>, i: nat)
    requires Streams(env) && Sendable(env, h) && i <= |done|
    requires LoadsInside(h, done)
    ensures var log, items := Log(done[..i]), Items(env, h, done[..i]);
      && log <= Log(done) && (forall k :: 0 <= k < |log| ==> log[k] < |h|)
      && Sse.Received(items, "") == EntryEvents(env, h, log)
      && Sse.LastId(items, "") == LastName(h, log)
  {
    ItemsPrint(env, h, done[..i]);
    ItemsLastId(env, h, done[..i]);
    LogBefore(done, i);
  }

  /** The client has heard exactly the matching entries from `s` to `k`, each once and in order, and its last event ID
      names `k`. */
  ghost predicate Follows(env: Env, ms: seq<MatchPair>, link: Link, s: nat, k: nat)
    requires env.format.EventStream?
  {
    && s <= k < |link.h| && env.filter(Ops(All(ms)), link.h[k])
    && link.client.lastId == link.h[k].cursor != ""
    && link.client.events == EntryEvents(env, link.h, Visible(env.filter, Ops(All(ms)), link.h, s, k + 1))
  }

  /** Nothing heard yet. */
  predicate Unheard(link: Link) {
    link.client.lastId == "" && link.client.events == []
  }

  /** Heard: an unbroken stretch of the matching entries from `s` on. */
  ghost predicate Stretch(env: Env, ms: seq<MatchPair>, link: Link, s: nat)
    requires env.format.EventStream?
  {
    exists k: nat :: Follows(env, ms, link, s, k)
  }

  /** Between connections: nothing heard yet, or an unbroken stretch of the journal. */
  ghost predicate Steady(env: Env, ms: seq<MatchPair>, link: Link)
    requires env.format.EventStream?
  {
    Unheard(link) || exists s: nat :: Stretch(env, ms, link, s)
  }

  /** A first part of the matching entries from `lo` on ends at one of them. */
  lemma {:induction false} LogEnds(env: Env, ops: seq<MatchOp>, h: seq<Entry>, lo: nat, log: seq<nat>)
    requires log != [] && log <= Visible(env.filter, ops, h, lo, |h|)
    ensures var k := log[|log| - 1];
      lo <= k < |h| && env.filter(ops, h[k]) && log == Visible(env.filter, ops, h, lo, k + 1)
  {
    var v, i := Visible(env.filter, ops, h, lo, |h|), |log| - 1;
    VisibleCut(env.filter, ops, h, lo, |h|, i);
    VisibleSplit(env.filter, ops, h, lo, v[i], v[i] + 1);
    assert Visible(env.filter, ops, h, v[i], v[i] + 1) == [v[i]];
    assert log == v[..i] + [v[i]];
  }

  /** A client that named entry k goes on after it, in the journal as it is then and as it grows. */
  lemma {:induction false} NamedOpens(env: Env, ms: seq<MatchPair>, h: seq<Entry>, head: nat, cursor: string, k: nat,
                                      landing: nat)
    requires Names(h, head, cursor, k) && (forall i :: 0 <= i < |h| ==> h[i].cursor != "")
    requires env.filter(Ops(All(ms)), h[k])
    ensures var r := ApplyOpts(env, Fresh(head), h, RangeOptions(ms, Window(cursor, 0, 0, 0, false)), landing);
      r.Ok? && r.value.journal.pos == On(k) && r.value.cursor == cursor
  {
    var w := Window(cursor, 0, 0, 0, false);
    RangeApplies(env, h, head, ms, w, landing);
    var before, on := Visible(env.filter, Ops(All(ms)), h, head, k), Visible(env.filter, Ops(All(ms)), h, k, |h|);
    SeekStands(env, ms, h, head, cursor, k, landing, before, on);
    assert on[0] == k;
  }

  /** What a connection does to its client: entries `log` of those from `s` on were heard, or only pings. */
  ghost predicate Goes(env: Env, ms: seq<MatchPair>, link: Link, after: Link, pinged: bool, s: nat, log: seq<nat>)
    requires env.format.EventStream?
  {
    && link.h <= after.h && Labelled(after.h)
    && log <= Visible(env.filter, Ops(All(ms)), after.h, s, |after.h|)
    && after.client.events == link.client.events + EntryEvents(env, after.h, log)
    && (log == [] ==> after.client.lastId == if pinged then "" else link.client.lastId)
    && (log != [] ==> !pinged && log[|log| - 1] < |after.h| && after.client.lastId == after.h[log[|log| - 1]].cursor)
  }

  /** A connection: some matching entries were heard, first to last from where its reader started, or only pings. */
  lemma SessionHears(env: Env, ms: seq<MatchPair>, link: Link, v: Visit, st: State) returns (log: seq<nat>)
    requires Streams(env) && Possible(env, ms, link, v) && Opens(env, ms, link, v) == Ok(st)
    ensures var after := Session(env, ms, link, v);
      Goes(env, ms, link, after, OnlyPings(Brought(env, ms, link, v)), NextIndex(st, after.h), log)
  {
    RangeConsistent(env, link.h, v.head, ms, Asked(link), v.landing);
    var w := Run(env, Begin(st, link.h), v.events);
    HistoryKept(env, st, link.h, v.events, w);
    ForwardAwaits(env, st, w.h);
    log := ConnectionHears(env, st, link.h, v.events, w, link.client, Min(v.received, |w.out|));
  }

  /** A client that follows goes on after the last entry it heard. */
  lemma NextAfter(env: Env, ms: seq<MatchPair>, link: Link, v: Visit, s: nat, k: nat, st: State, grown: seq<Entry>)
    requires Streams(env) && Possible(env, ms, link, v) && Follows(env, ms, link, s, k)
    requires Opens(env, ms, link, v) == Ok(st) && link.h <= grown
    ensures NextIndex(st, grown) == k + 1
  {
    var i :| Names(link.h, v.head, link.client.lastId, i);
    assert i == k;
    NamedOpens(env, ms, link.h, v.head, link.client.lastId, k, v.landing);
  }

  lemma {:induction false} HistoryKept(env: Env, st: State, h: seq<Entry>, events: seq<Event>, w: World)
    requires InBounds(st.journal, |h|) && Consistent(env, st, h) && AllAllowed(env, Begin(st, h), events)
    requires w == Run(env, Begin(st, h), events)
    ensures h <= w.h && InBounds(st.journal, |w.h|) && Consistent(env, st, w.h) && Log(w.done) <= Awaiting(env, st, w.h)
  {
    assert Awaiting(env, st, h) == [] + Awaiting(env, st, h);
    assert PendingText(st) + "" == "" + PendingText(st);
    RunKeeps(env, st, Begin(st, h), events);
  }

  /** The events heard so far are the same in the journal as it has grown. */
  lemma {:induction false} HeardGrows(env: Env, ops: seq<MatchOp>, h: seq<Entry>, grown: seq<Entry>, s: nat, hi: nat)
    requires env.format.EventStream? && h <= grown && hi <= |h|
    ensures EntryEvents(env, grown, Visible(env.filter, ops, grown, s, hi))
         == EntryEvents(env, h, Visible(env.filter, ops, h, s, hi))
  {
    VisibleGrow(env.filter, ops, h, grown, s, hi);
    var log := Visible(env.filter, ops, h, s, hi);
    forall i | 0 <= i < |log| ensures log[i] < |h| {
      VisibleInside(env.filter, ops, h, s, hi, i);
    }
    EventsGrow(env, h, grown, log);
  }

  lemma {:induction false} StretchOn(env: Env, ops: seq<MatchOp>, h: seq<Entry>, s: nat, m: nat, hi: nat, log: seq<nat>)
    requires env.format.EventStream? && s <= m <= hi <= |h| && log == Visible(env.filter, ops, h, m, hi)
    ensures EntryEvents(env, h, Visible(env.filter, ops, h, s, hi))
         == EntryEvents(env, h, Visible(env.filter, ops, h, s, m)) + EntryEvents(env, h, log)
  {
    VisibleSplit(env.filter, ops, h, s, m, hi);
    EventsConcat(env, h, Visible(env.filter, ops, h, s, m), log);
  }

  lemma {:induction false} HeardOn(env: Env, ops: seq<MatchOp>, h: seq<Entry>, grown: seq<Entry>, s: nat, m: nat,
                                   hi: nat, log: seq<nat>,
                before: seq<Sse.Event>)
    requires env.format.EventStream? && h <= grown && s <= m <= |h| && m <= hi <= |grown|
    requires before == EntryEvents(env, h, Visible(env.filter, ops, h, s, m))
    requires log == Visible(env.filter, ops, grown, m, hi)
    ensures EntryEvents(env, grown, Visible(env.filter, ops, grown, s, hi)) == before + EntryEvents(env, grown, log)
  {
    HeardGrows(env, ops, h, grown, s, m);
    StretchOn(env, ops, grown, s, m, hi, log);
  }

  lemma {:induction false} FollowsOn(env: Env, ms: seq<MatchPair>, link: Link, after: Link, s: nat, k: nat,
                                     log: seq<nat>, last: nat)
    requires Streams(env) && Follows(env, ms, link, s, k) && link.h <= after.h
    requires k < last < |after.h| && env.filter(Ops(All(ms)), after.h[last])
    requires log == Visible(env.filter, Ops(All(ms)), after.h, k + 1, last + 1)
    requires after.client.events == link.client.events + EntryEvents(env, after.h, log)
    requires after.client.lastId == after.h[last].cursor != ""
    ensures Follows(env, ms, after, s, last)
  {
    HeardOn(env, Ops(All(ms)), link.h, after.h, s, k + 1, last + 1, log, link.client.events);
  }

  lemma FollowsStill(env: Env, ms: seq<MatchPair>, link: Link, after: Link, s: nat, k: nat)
    requires Streams(env) && Follows(env, ms, link, s, k) && link.h <= after.h
    requires after.client.events == link.client.events && after.client.lastId == link.client.lastId
    ensures Follows(env, ms, after, s, k)
  {
    HeardGrows(env, Ops(All(ms)), link.h, after.h, s, k + 1);
  }

  /** A client goes on, or pings alone take its ID. */
  ghost predicate GoesOn(env: Env, ms: seq<MatchPair>, link: Link, after: Link, pinged: bool, s: nat)
    requires env.format.EventStream?
  {
    if pinged then after.client.lastId == "" && after.client.events == link.client.events
    else Stretch(env, ms, after, s)
  }

  lemma FollowerHears(env: Env, ms: seq<MatchPair>, link: Link, after: Link, pinged: bool, s: nat, k: nat,
                      log: seq<nat>)
    requires Streams(env) && Follows(env, ms, link, s, k) && Goes(env, ms, link, after, pinged, k + 1, log)
    ensures GoesOn(env, ms, link, after, pinged, s)
  {
    if log != [] {
      LogEnds(env, Ops(All(ms)), after.h, k + 1, log);
      FollowsOn(env, ms, link, after, s, k, log, log[|log| - 1]);
    } else {
      assert link.client.events + [] == link.client.events;
      if !pinged {
        FollowsStill(env, ms, link, after, s, k);
      }
    }
  }

  lemma FollowerSession(env: Env, ms: seq<MatchPair>, link: Link, v: Visit, s: nat)
    requires Streams(env) && Possible(env, ms, link, v) && Stretch(env, ms, link, s)
    ensures GoesOn(env, ms, link, Session(env, ms, link, v), OnlyPings(Brought(env, ms, link, v)), s)
  {
    var k: nat :| Follows(env, ms, link, s, k);
    var r := Opens(env, ms, link, v);
    if r.Ok? {
      var log := SessionHears(env, ms, link, v, r.value);
      NextAfter(env, ms, link, v, s, k, r.value, Session(env, ms, link, v).h);
      FollowerHears(env, ms, link, Session(env, ms, link, v), OnlyPings(Brought(env, ms, link, v)), s, k, log);
    }
  }

  /** Where the stretch begins that a connection brings to a client that has heard nothing. */
  function Begins(env: Env, ms: seq<MatchPair>, link: Link, v: Visit): nat
    requires Streams(env) && Possible(env, ms, link, v)
  {
    match Opens(env, ms, link, v)
    case Err(_) => 0
    case Ok(st) => NextIndex(st, Session(env, ms, link, v).h)
  }

  /** What the first connection that brings an entry does. */
  lemma FirstSession(env: Env, ms: seq<MatchPair>, link: Link, v: Visit)
    requires Streams(env) && Possible(env, ms, link, v) && Unheard(link)
    ensures var after := Session(env, ms, link, v);
      if after.client.events == [] then Unheard(after) else Stretch(env, ms, after, Begins(env, ms, link, v))
  {
    var r, after := Opens(env, ms, link, v), Session(env, ms, link, v);
    if r.Ok? {
      var log := SessionHears(env, ms, link, v, r.value);
      var s := Begins(env, ms, link, v);
      assert [] + EntryEvents(env, after.h, log) == EntryEvents(env, after.h, log);
      if log != [] {
        LogEnds(env, Ops(All(ms)), after.h, s, log);
        assert Follows(env, ms, after, s, log[|log| - 1]);
        SomethingHeard(env, ms, after, s);
      }
    }
  }

  lemma SomethingHeard(env: Env, ms: seq<MatchPair>, link: Link, s: nat)
    requires env.format.EventStream? && Stretch(env, ms, link, s)
    ensures link.client.events != [] && link.client.lastId != ""
  {
    var k: nat :| Follows(env, ms, link, s, k);
    HasLast(env, Ops(All(ms)), link.h, s, k);
  }

  /** A request without cursor and skips begins at the oldest entry. */
  lemma PlainBegins(env: Env, ms: seq<MatchPair>, link: Link, v: Visit)
    requires Streams(env) && Possible(env, ms, link, v)
    requires link.client.lastId == "" && link.cursor == "" && link.next == link.prev == 0
    ensures Opens(env, ms, link, v).Ok? && Begins(env, ms, link, v) == v.head
  {
    RangeApplies(env, link.h, v.head, ms, Asked(link), v.landing);
  }

  ghost predicate AllPossible(env: Env, ms: seq<MatchPair>, link: Link, visits: seq<Visit>)
    requires Streams(env)
    decreases |visits|
  {
    visits != [] ==>
      Possible(env, ms, link, visits[0]) && AllPossible(env, ms, Session(env, ms, link, visits[0]), visits[1..])
  }

  function Sessions(env: Env, ms: seq<MatchPair>, link: Link, visits: seq<Visit>): Link
    requires Streams(env) && AllPossible(env, ms, link, visits)
    decreases |visits|
  {
    if visits == [] then link else Sessions(env, ms, Session(env, ms, link, visits[0]), visits[1..])
  }

  /** A client that has heard something hears pings and no entry. */
  predicate Forgets(env: Env, ms: seq<MatchPair>, link: Link, v: Visit)
    requires Streams(env) && Possible(env, ms, link, v)
  {
    link.client.events != [] && OnlyPings(Brought(env, ms, link, v))
  }

  /** That happens in none of the connections. */
  ghost predicate Remembers(env: Env, ms: seq<MatchPair>, link: Link, visits: seq<Visit>)
    requires Streams(env) && AllPossible(env, ms, link, visits)
    decreases |visits|
  {
    visits != [] ==>
      !Forgets(env, ms, link, visits[0]) && Remembers(env, ms, Session(env, ms, link, visits[0]), visits[1..])
  }

  /** A client is Steady before and after each of the connections. */
  ghost predicate SteadyThroughout(env: Env, ms: seq<MatchPair>, link: Link, visits: seq<Visit>)
    requires Streams(env) && AllPossible(env, ms, link, visits)
    decreases |visits|
  {
    && Steady(env, ms, link)
    && (visits != [] ==> SteadyThroughout(env, ms, Session(env, ms, link, visits[0]), visits[1..]))
  }

  lemma SessionSteadyIff(env: Env, ms: seq<MatchPair>, link: Link, v: Visit)
    requires Streams(env) && Possible(env, ms, link, v) && Steady(env, ms, link)
    ensures Steady(env, ms, Session(env, ms, link, v)) <==> !Forgets(env, ms, link, v)
  {
    var after := Session(env, ms, link, v);
    if Unheard(link) {
      FirstSession(env, ms, link, v);
    } else {
      var s: nat :| Stretch(env, ms, link, s);
      SomethingHeard(env, ms, link, s);
      FollowerSession(env, ms, link, v, s);
      if t: nat :| Stretch(env, ms, after, t) {
        SomethingHeard(env, ms, after, t);
      }
    }
  }

  /** When reconnecting to the journal is seamless: over any connections, each with any reads, appends and reopenings
      and cut off after any byte, what a client has heard is always an unbroken stretch of the matching entries, each
      once and in order, with its last event ID naming the last, if and only if no connection brings pings and no
      entry to a client that has heard one. */
  lemma {:induction false} SeamlessJournalIff(env: Env, ms: seq<MatchPair>, link: Link, visits: seq<Visit>)
    requires Streams(env) && AllPossible(env, ms, link, visits) && Steady(env, ms, link)
    ensures SteadyThroughout(env, ms, link, visits) <==> Remembers(env, ms, link, visits)
    decreases |visits|
  {
    if visits != [] {
      var after := Session(env, ms, link, visits[0]);
      SessionSteadyIff(env, ms, link, visits[0]);
      if Steady(env, ms, after) {
        SeamlessJournalIff(env, ms, after, visits[1..]);
      }
    }
  }

  /** The stretch begins where the connection began that brought its first entry. */
  function Began(env: Env, ms: seq<MatchPair>, link: Link, visits: seq<Visit>): nat
    requires Streams(env) && AllPossible(env, ms, link, visits)
    decreases |visits|
  {
    if visits == [] then 0
    else
      var after := Session(env, ms, link, visits[0]);
      if after.client.events != [] then Begins(env, ms, link, visits[0]) else Began(env, ms, after, visits[1..])
  }

  /** So from a fresh client, over connections in none of which it forgets, the stretch has one beginning. */
  lemma {:induction false} SeamlessJournal(env: Env, ms: seq<MatchPair>, link: Link, visits: seq<Visit>)
    requires Streams(env) && AllPossible(env, ms, link, visits) && Remembers(env, ms, link, visits) && Unheard(link)
    ensures var end := Sessions(env, ms, link, visits);
      Unheard(end) || Stretch(env, ms, end, Began(env, ms, link, visits))
    decreases |visits|
  {
    if visits != [] {
      var after := Session(env, ms, link, visits[0]);
      FirstSession(env, ms, link, visits[0]);
      if after.client.events == [] {
        SeamlessJournal(env, ms, after, visits[1..]);
      } else {
        StretchLasts(env, ms, after, visits[1..], Begins(env, ms, link, visits[0]));
      }
    }
  }

  /** The head of the connection that brought the first entry. */
  function FirstHead(env: Env, ms: seq<MatchPair>, link: Link, visits: seq<Visit>): nat
    requires Streams(env) && AllPossible(env, ms, link, visits)
    decreases |visits|
  {
    if visits == [] then 0
    else
      var after := Session(env, ms, link, visits[0]);
      if after.client.events != [] then visits[0].head else FirstHead(env, ms, after, visits[1..])
  }

  /** For a request without cursor and skips the stretch begins at the oldest entry that was there then. */
  lemma {:induction false} PlainBegan(env: Env, ms: seq<MatchPair>, link: Link, visits: seq<Visit>)
    requires Streams(env) && AllPossible(env, ms, link, visits) && Unheard(link)
    requires link.cursor == "" && link.next == link.prev == 0
    ensures Began(env, ms, link, visits) == FirstHead(env, ms, link, visits)
    decreases |visits|
  {
    if visits != [] {
      PlainBegins(env, ms, link, visits[0]);
      FirstSession(env, ms, link, visits[0]);
      SessionAsks(env, ms, link, visits[0]);
      if Session(env, ms, link, visits[0]).client.events == [] {
        PlainBegan(env, ms, Session(env, ms, link, visits[0]), visits[1..]);
      }
    }
  }

  lemma {:induction false} StretchLasts(env: Env, ms: seq<MatchPair>, link: Link, visits: seq<Visit>, s: nat)
    requires Streams(env) && AllPossible(env, ms, link, visits) && Remembers(env, ms, link, visits)
    requires Stretch(env, ms, link, s)
    ensures Stretch(env, ms, Sessions(env, ms, link, visits), s)
    decreases |visits|
  {
    if visits != [] {
      SomethingHeard(env, ms, link, s);
      FollowerSession(env, ms, link, visits[0], s);
      StretchLasts(env, ms, Session(env, ms, link, visits[0]), visits[1..], s);
    }
  }

  /** When the ID is lost: a client that follows comes out of a connection without an ID if and only if what reached it
      whole was pings and no entry, as every blank line sets the last event ID and a new stream starts without
      one. It has heard nothing new then, and repeats its first request. */
  lemma NameLostIff(env: Env, ms: seq<MatchPair>, link: Link, v: Visit, s: nat)
    requires Streams(env) && Possible(env, ms, link, v) && Stretch(env, ms, link, s)
    ensures var after := Session(env, ms, link, v);
      && (after.client.lastId == "" <==> OnlyPings(Brought(env, ms, link, v)))
      && (after.client.lastId == "" ==>
            after.client.events == link.client.events
            && Asked(after) == Window(link.cursor, 0, link.next, link.prev, false))
  {
    FollowerSession(env, ms, link, v, s);
    if !OnlyPings(Brought(env, ms, link, v)) {
      SomethingHeard(env, ms, Session(env, ms, link, v), s);
    }
    SessionAsks(env, ms, link, v);
  }

  lemma SessionAsks(env: Env, ms: seq<MatchPair>, link: Link, v: Visit)
    requires Streams(env) && Possible(env, ms, link, v)
    ensures var after := Session(env, ms, link, v); after == link.(h := after.h, client := after.client)
  {
  }

  /** The events of some entries, one by one. */
  lemma {:induction false} EventsAt(env: Env, h: seq<Entry>, log: seq<nat>, i: nat)
    requires env.format.EventStream? && i < |log| && forall k :: 0 <= k < |log| ==> log[k] < |h|
    ensures |EntryEvents(env, h, log)| == |log| && [EntryEvents(env, h, log)[i]] == EntryEvent(env, h, log[i])
    decreases |log|
  {
    var before := log[..|log| - 1];
    if before != [] {
      EventsAt(env, h, before, Min(i, |before| - 1));
    }
  }

  /** And what that costs: a client of a request without cursor and skips, its ID lost, is next sent an entry it has
      heard already, as long as the last one it heard is still in the journal. */
  lemma LostRepeats(env: Env, ms: seq<MatchPair>, link: Link, v: Visit, u: Visit, s: nat, k: nat) returns (i: nat)
    requires Streams(env) && Possible(env, ms, link, v) && Follows(env, ms, link, s, k)
    requires link.cursor == "" && link.next == link.prev == 0 && OnlyPings(Brought(env, ms, link, v))
    requires var lost := Session(env, ms, link, v);
      && Possible(env, ms, lost, u) && s <= u.head <= k
      && |Session(env, ms, lost, u).client.events| > |link.client.events|
    ensures var again := Session(env, ms, Session(env, ms, link, v), u);
      && link.client.events < again.client.events && i < |link.client.events|
      && again.client.events[|link.client.events|] == link.client.events[i]
  {
    var lost := Session(env, ms, link, v);
    var again := Session(env, ms, lost, u);
    FollowerSession(env, ms, link, v, s);
    SessionAsks(env, ms, link, v);
    PlainBegins(env, ms, lost, u);
    var log := SessionHears(env, ms, lost, u, Opens(env, ms, lost, u).value);
    HistoryGrows(env, ms, link, v);
    i := SentAgain(env, Ops(All(ms)), link.h, again.h, s, u.head, k, log);
  }

  lemma HistoryGrows(env: Env, ms: seq<MatchPair>, link: Link, v: Visit)
    requires Streams(env) && Possible(env, ms, link, v)
    ensures link.h <= Session(env, ms, link, v).h
  {
    var r := Opens(env, ms, link, v);
    if r.Ok? {
      var log := SessionHears(env, ms, link, v, r.value);
    }
  }

  /** The first of the entries from `head` on is among those from `s` to `k`. */
  lemma SentAgain(env: Env, ops: seq<MatchOp>, h: seq<Entry>, grown: seq<Entry>, s: nat, head: nat, k: nat,
                  log: seq<nat>)
    returns (i: nat)
    requires env.format.EventStream? && h <= grown && s <= head <= k < |h| && env.filter(ops, h[k])
    requires log != [] && log <= Visible(env.filter, ops, grown, head, |grown|)
    ensures var heard, more := EntryEvents(env, h, Visible(env.filter, ops, h, s, k + 1)), EntryEvents(env, grown, log);
      i < |heard| && more != [] && more[0] == heard[i]
  {
    var all, part := Visible(env.filter, ops, grown, head, |grown|), Visible(env.filter, ops, h, head, k + 1);
    var mine := Visible(env.filter, ops, h, s, k + 1);
    i := |Visible(env.filter, ops, h, s, head)|;
    VisibleGrow(env.filter, ops, h, grown, head, k + 1);
    VisibleSplit(env.filter, ops, grown, head, k + 1, |grown|);
    VisibleSplit(env.filter, ops, h, s, head, k + 1);
    HasLast(env, ops, h, head, k);
    assert log[0] == all[0] && mine[i] == part[0];
    EventOfBoth(env, h, grown, s, k + 1, head, ops, mine, log, i);
  }

  lemma HasLast(env: Env, ops: seq<MatchOp>, h: seq<Entry>, lo: nat, k: nat)
    requires lo <= k < |h| && env.filter(ops, h[k])
    ensures var v := Visible(env.filter, ops, h, lo, k + 1); v != [] && v[|v| - 1] == k
  {
    VisibleSplit(env.filter, ops, h, lo, k, k + 1);
    assert Visible(env.filter, ops, h, k, k + 1) == [k];
  }

  lemma {:induction false} EventOfBoth(env: Env, h: seq<Entry>, grown: seq<Entry>, s: nat, hi: nat, head: nat,
                                       ops: seq<MatchOp>,
                    mine: seq<nat>, log: seq<nat>, i: nat)
    requires env.format.EventStream? && h <= grown && hi <= |h| && mine == Visible(env.filter, ops, h, s, hi)
    requires log != [] && log <= Visible(env.filter, ops, grown, head, |grown|) && i < |mine| && mine[i] == log[0]
    ensures var heard, more := EntryEvents(env, h, mine), EntryEvents(env, grown, log);
      i < |heard| && more != [] && more[0] == heard[i]
  {
    VisibleInBounds(env, ops, h, s, hi);
    VisibleInBounds(env, ops, grown, head, |grown|);
    EventsAt(env, h, mine, i);
    EventsAt(env, grown, log, 0);
    assert h[mine[i]] == grown[log[0]];
    var one := [EntryEvents(env, grown, log)[0]];
    assert one == [EntryEvents(env, h, mine)[i]] && one[0] == EntryEvents(env, h, mine)[i];
  }

  lemma {:induction false} VisibleInBounds(env: Env, ops: seq<MatchOp>, h: seq<Entry>, lo: nat, hi: nat)
    requires hi <= |h|
    ensures var v := Visible(env.filter, ops, h, lo, hi); forall i :: 0 <= i < |v| ==> v[i] < |h|
  {
    var v := Visible(env.filter, ops, h, lo, hi);
    forall i | 0 <= i < |v| ensures v[i] < |h| {
      VisibleInside(env.filter, ops, h, lo, hi, i);
    }
  }

  /** The window of a v2 stream (api/v2/handlers.go) that comes back: it has the last event ID for its cursor like one
      of v1, but keeps its limit and its skip, which counts backwards when negative. */
  function AskedV2(lastEventId: string, limit: nat, skip: int): Window {
    Window(lastEventId, limit, Max(skip, 0), Max(-skip, 0), false)
  }

  /** So it goes on right after the entry named if and only if the skip is 0 or 1, or there is no entry to go back to,
      or none to pass over: a negative skip sends entries again, one above 1 loses some. */
  lemma KeptSkipIff(env: Env, h: seq<Entry>, head: nat, ms: seq<MatchPair>, cursor: string, k: nat, limit: nat,
                    skip: int, landing: nat)
    requires Names(h, head, cursor, k) && Labelled(h) && env.filter(Ops(All(ms)), h[k])
    ensures var r := ApplyOpts(env, Fresh(head), h, RangeOptions(ms, AskedV2(cursor, limit, skip)), landing);
      var before := Visible(env.filter, Ops(All(ms)), h, head, k);
      var later := Visible(env.filter, Ops(All(ms)), h, k + 1, |h|);
      && r.Ok? && r.value.limit == limit && r.value.useLimit == (limit > 0)
      && (Awaiting(env, r.value, h) == later
          <==> 0 <= skip <= 1 || (skip < 0 && before == []) || (skip > 1 && |later| <= 1))
  {
    var before := Visible(env.filter, Ops(All(ms)), h, head, k);
    var later := Visible(env.filter, Ops(All(ms)), h, k + 1, |h|);
    var v, start := KeptReads(env, h, head, ms, AskedV2(cursor, limit, skip), k, landing, before, later);
    RangeConsistent(env, h, head, ms, AskedV2(cursor, limit, skip), landing);
    KeptRank(cursor, limit, skip, |before|, |later|);
    KeptOnward(v, before, later, k, start);
  }

  /** What a request awaits that named an entry which matches, reading forward from `v[start]`. */
  lemma KeptReads(env: Env, h: seq<Entry>, head: nat, ms: seq<MatchPair>, w: Window, k: nat, landing: nat,
                  before: seq<nat>, later: seq<nat>)
    returns (v: seq<nat>, start: nat)
    requires Names(h, head, w.cursor, k) && Labelled(h) && env.filter(Ops(All(ms)), h[k]) && !w.reverse
    requires before == Visible(env.filter, Ops(All(ms)), h, head, k)
    requires later == Visible(env.filter, Ops(All(ms)), h, k + 1, |h|)
    ensures v == before + ([k] + later) && Ascending(v) && start == StartRank(w, |v|, |before|)
    ensures var r := ApplyOpts(env, Fresh(head), h, RangeOptions(ms, w), landing);
      r.Ok? && Awaiting(env, r.value, h) == (if v[start] == k then [] else [v[start]]) + v[start + 1..]
  {
    var st, early, on := MatchingStart(env, h, head, ms, w, k, landing);
    v := before + ([k] + later);
    start := StartRank(w, |v|, |before|);
    Around(env, Ops(All(ms)), h, head, k, v);
    AwaitsAround(env, st, h, w, v, |before|, k);
  }

  lemma AwaitsAround(env: Env, st: State, h: seq<Entry>, w: Window, v: seq<nat>, i: nat, k: nat)
    requires ReadsAround(env, st, h, w, v, i, k) && !w.reverse
    ensures InBounds(st.journal, |h|) && i < |v|
    ensures var start := StartRank(w, |v|, i);
      Awaiting(env, st, h) == (if v[start] == k then [] else [v[start]]) + v[start + 1..]
  {
  }

  /** Where such a request starts, counted in entries before and after the one named. */
  lemma KeptRank(cursor: string, limit: nat, skip: int, before: nat, later: nat)
    ensures before <= StartRank(AskedV2(cursor, limit, skip), before + 1 + later, before) <= before + 1
      <==> 0 <= skip <= 1 || (skip < 0 && before == 0) || (skip > 1 && later <= 1)
  {
  }

  lemma KeptOnward(v: seq<nat>, before: seq<nat>, later: seq<nat>, k: nat, start: nat)
    requires v == before + ([k] + later) && Ascending(v) && start < |v|
    ensures (if v[start] == k then [] else [v[start]]) + v[start + 1..] == later <==> |before| <= start <= |before| + 1
  {
    assert v[|before|] == k && v[|before| + 1..] == later;
    OnwardIff(v, |before|, start);
  }

  ghost predicate Ascending(v: seq<nat>) {
    forall i, j :: 0 <= i < j < |v| ==> v[i] < v[j]
  }

  /** Reading on from one place of a list, but for the entry at another, gives what comes after the latter. */
  lemma OnwardIff(v: seq<nat>, i: nat, start: nat)
    requires i < |v| && start < |v| && Ascending(v)
    ensures (if v[start] == v[i] then [] else [v[start]]) + v[start + 1..] == v[i + 1..] <==> i <= start <= i + 1
  {
    assert |v[start + 1..]| == |v| - start - 1 && |v[i + 1..]| == |v| - i - 1;
    if start < i || start > i + 1 {
      assert v[start] != v[i];
    }
  }

  lemma Around(env: Env, ops: seq<MatchOp>, h: seq<Entry>, head: nat, k: nat, v: seq<nat>)
    requires head <= k < |h| && env.filter(ops, h[k])
    requires v == Visible(env.filter, ops, h, head, k) + ([k] + Visible(env.filter, ops, h, k + 1, |h|))
    ensures Ascending(v)
  {
    VisibleSplit(env.filter, ops, h, head, k, |h|);
    VisibleFirst(env.filter, ops, h, k, |h|, h[k]);
    forall i, j | 0 <= i < j < |v| ensures v[i] < v[j] {
      VisibleCut(env.filter, ops, h, head, |h|, j);
      VisibleInside(env.filter, ops, h, head, v[j], i);
    }
  }

  /** And that happens at once on a quiet journal: a reader just opened that awaits nothing starts with a ping. */
  lemma QuietPings(env: Env, st: State, h: seq<Entry>, since: int, now: int)
    requires InBounds(st.journal, |h|) && env.format.EventStream?
    requires st.pending == None && st.eofTime == None && !JournalReader.LimitReached(st) && Awaiting(env, st, h) == []
    ensures Load(env, st, h, since, now).1 == Pinged
  {
    MoveTakes(env, st, h);
  }

  /** So a client that comes back when there is nothing new and hears the first ping loses its place. */
  lemma {:induction false} QuietLoses(env: Env, ms: seq<MatchPair>, link: Link, v: Visit, s: nat, k: nat, since: int,
                                      now: int, bufLen: nat)
    requires Streams(env) && Possible(env, ms, link, v) && Follows(env, ms, link, s, k)
    requires Visible(env.filter, Ops(All(ms)), link.h, k + 1, |link.h|) == []
    requires v.events == [ReadCall(since, now, bufLen)] && bufLen >= |PING| && v.received >= |PING|
    ensures Session(env, ms, link, v) == link.(client := Sse.Reconnected(link.client).(lastId := ""))
  {
    var i :| Names(link.h, v.head, link.client.lastId, i);
    NamedOpens(env, ms, link.h, v.head, link.client.lastId, k, v.landing);
    var st := Opens(env, ms, link, v).value;
    NextAfter(env, ms, link, v, s, k, st, link.h);
    OpensQuiet(env, ms, link, v, st, k);
    QuietPings(env, st, link.h, since, now);
    OnePing(env, st, link.h, since, now, bufLen);
    PingHeard(link.client);
  }

  lemma PingHeard(c: Sse.Client)
    ensures Sse.Interpret(Sse.Reconnected(c), PING[..|PING|]) == Sse.Reconnected(c).(lastId := "")
  {
    Sse.InterpretPing(Sse.Reconnected(c), "");
    assert Sse.Print(Sse.Ping) + "" == PING == PING[..|PING|];
    Sse.InterpretPart(Sse.Reconnected(c).(lastId := ""), "");
  }

  lemma OpensQuiet(env: Env, ms: seq<MatchPair>, link: Link, v: Visit, st: State, k: nat)
    requires v.head <= |link.h| && Opens(env, ms, link, v) == Ok(st) && NextIndex(st, link.h) == k + 1
    requires Visible(env.filter, Ops(All(ms)), link.h, k + 1, |link.h|) == []
    ensures st.pending == None && st.eofTime == None && !st.useLimit && Awaiting(env, st, link.h) == []
  {
    RangeConsistent(env, link.h, v.head, ms, Asked(link), v.landing);
    ForwardAwaits(env, st, link.h);
    OpensFresh(env, ms, link, v, st);
  }

  lemma OpensFresh(env: Env, ms: seq<MatchPair>, link: Link, v: Visit, st: State)
    requires v.head <= |link.h| && Opens(env, ms, link, v) == Ok(st)
    ensures st.eofTime == None && !st.useLimit
  {
    RangeApplies(env, link.h, v.head, ms, Asked(link), v.landing);
  }

  lemma {:induction false} OnePing(env: Env, st: State, h: seq<Entry>, since: int, now: int, bufLen: nat)
    requires InBounds(st.journal, |h|) && Load(env, st, h, since, now).1 == Pinged && bufLen >= |PING|
    ensures AllAllowed(env, Begin(st, h), [ReadCall(since, now, bufLen)])
    ensures var w := Run(env, Begin(st, h), [ReadCall(since, now, bufLen)]); w.h == h && w.out == PING
  {
    var call := ReadCall(since, now, bufLen);
    assert [call][1..] == [] && PING[..|PING|] == PING && "" + PING == PING;
    assert Run(env, Begin(st, h), [call]) == Run(env, Apply(env, Begin(st, h), call), []);
  }
}
