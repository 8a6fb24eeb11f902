/** The journal reader (journal/reader/read.go, config.go and formatters.go). */
module JournalReader {
  import opened Prelude
  import opened Text
  import opened Journal
  import Cursor

  datatype MatchPair = MatchPair(field: string, value: string)

  /** A match function an option recorded, to be applied again to another handle. */
  datatype MatchFn = All(ms: seq<MatchPair>) | Any(ms: seq<MatchPair>)

  /** JournalEntryMatch.String. */
  function Show(m: MatchPair): string {
    m.field + "=" + m.value
  }

  /** The match list operations of a match function. */
  function Ops(fn: MatchFn): seq<MatchOp>
    decreases |fn.ms|
  {
    if fn.ms == [] then []
    else
      match fn
      case All(ms) => [AddMatch(Show(ms[0]))] + Ops(All(ms[1..]))
      case Any(ms) => [AddMatch(Show(ms[0])), AddDisjunction] + Ops(Any(ms[1..]))
  }

  function Replay(fns: seq<MatchFn>): seq<MatchOp> {
    if fns == [] then [] else Replay(fns[..|fns| - 1]) + Ops(fns[|fns| - 1])
  }

  /** The three formatters. Timestamps and JSON are whatever `stamp` and `marshal` make of an entry. */
  datatype Format =
    | PlainText(stamp: Entry -> string)
    | Json(marshal: Entry -> string)
    | EventStream(marshal: Entry -> string, useCursorId: bool)

  function FormatEntry(f: Format, e: Entry): string {
    match f
    case PlainText(stamp) =>
      if "MESSAGE" in e.fields then stamp(e) + ": " + e.fields["MESSAGE"] + "\n" else ""
    case Json(marshal) => marshal(e) + "\n"
    case EventStream(marshal, useCursorId) =>
      (if useCursorId then "id: " + e.cursor + "\n" else "") + "data: " + marshal(e) + "\n\n"
  }

  const PING := ": ping\n\n"

  /** 15 seconds, in nanoseconds. */
  const PING_INTERVAL: int := 15_000_000_000

  /** The fields of a Reader; eofTime is None while it has its zero value. */
  datatype State = State(
    journal: Handle, cursor: string, limit: nat, useLimit: bool, skippedNext: nat, skippedPrev: nat,
    reverse: bool, eofTime: Option<int>, pending: Option<string>, n: nat, matchFns: seq<MatchFn>)

  /** What a reader works with and cannot change. */
  datatype Env = Env(filter: Filter, format: Format)

  predicate IdleLongEnough(eofTime: Option<int>, since: int) {
    eofTime == None || since - eofTime.value >= PING_INTERVAL
  }

  predicate LimitReached(st: State) {
    st.useLimit && st.limit == 0
  }

  /** The first read of a position that is already on an entry does not move, unless it is the entry the
      client named. */
  predicate StaysPut(st: State, h: seq<Entry>) {
    st.n == 0 && st.journal.pos.On? && st.journal.pos.at < |h| && h[st.journal.pos.at].cursor != st.cursor
  }

  /** The handle to read from: moved by one entry in the reading direction, or left where it is. */
  function Move(env: Env, st: State, h: seq<Entry>): (r: (Handle, nat))
    requires InBounds(st.journal, |h|)
    ensures InBounds(r.0, |h|) && (r.1 > 0 ==> r.0.pos.On?)
  {
    if StaysPut(st, h) then (st.journal, 1)
    else if st.reverse then PreviousSkip(st.journal, h, env.filter, 1)
    else NextSkip(st.journal, h, env.filter, 1)
  }

  lemma MoveStays(env: Env, st: State, h: seq<Entry>)
    requires InBounds(st.journal, |h|)
    ensures Move(env, st, h).1 == 0 ==> Move(env, st, h).0 == st.journal
  {
  }

  /** How the buffer of Read came by its content. */
  datatype Loaded = Kept | AtEnd | Took(index: nat) | Pinged

  /** The part of Read that fills an empty buffer; `since` and `now` are its two clock readings. */
  function Load(env: Env, st: State, h: seq<Entry>, since: int, now: int): (r: (State, Loaded))
    requires InBounds(st.journal, |h|)
    ensures InBounds(r.0.journal, |h|) && (r.1.AtEnd? || r.0.pending.Some?)
  {
    if st.pending.Some? then (st, Kept)
    else if LimitReached(st) then (st, AtEnd)
    else
      var (journal, moved) := Move(env, st, h);
      if moved == 0 then
        if !env.format.EventStream? || !IdleLongEnough(st.eofTime, since) then (st, AtEnd)
        else (st.(pending := Some(PING), eofTime := Some(now)), Pinged)
      else
        (st.(journal := journal, eofTime := Some(now), pending := Some(FormatEntry(env.format, h[journal.pos.at])),
             limit := if st.useLimit then st.limit - 1 else st.limit, n := st.n + 1),
         Took(journal.pos.at))
  }

  /** bytes.Reader.Read on the buffer, and its release once drained. */
  function Copy(pending: string, bufLen: nat): (string, Option<string>) {
    var k := Min(bufLen, |pending|);
    (pending[..k], if pending[k..] == "" then None else Some(pending[k..]))
  }

  /** Reader.Read: the new state, where the bytes come from, and the bytes, or None for EOF. */
  function ReadFrom(env: Env, st: State, h: seq<Entry>, since: int, now: int, bufLen: nat)
    : (r: (State, Loaded, Option<string>))
    requires InBounds(st.journal, |h|)
    ensures InBounds(r.0.journal, |h|)
  {
    var (loaded, how) := Load(env, st, h, since, now);
    if how == AtEnd then (loaded, how, None)
    else
      var (out, rest) := Copy(loaded.pending.value, bufLen);
      (loaded.(pending := rest), how, Some(out))
  }

  /** Entries beyond the position, in reading order. */
  function Beyond(env: Env, j: Handle, reverse: bool, h: seq<Entry>): seq<nat>
    requires InBounds(j, |h|)
  {
    if reverse then Rev(Behind(j, h, env.filter)) else Ahead(j, h, env.filter)
  }

  /** Entries still to come, in reading order, as things stand. */
  function Awaiting(env: Env, st: State, h: seq<Entry>): seq<nat>
    requires InBounds(st.journal, |h|)
  {
    (if StaysPut(st, h) then [st.journal.pos.at] else []) + Beyond(env, st.journal, st.reverse, h)
  }

  lemma MoveTakes(env: Env, st: State, h: seq<Entry>)
    requires InBounds(st.journal, |h|)
    ensures var (j, moved) := Move(env, st, h);
      && j.pos.at <= |h|
      && if moved == 0 then Awaiting(env, st, h) == [] && j == st.journal
         else Awaiting(env, st, h) == [j.pos.at] + Beyond(env, j, st.reverse, h)
  {
    if StaysPut(st, h) {
    } else if st.reverse {
      BackTakes(env, st.journal, h, Behind(st.journal, h, env.filter));
    } else {
      OnTakes(env, st.journal, h, Ahead(st.journal, h, env.filter));
    }
  }

  lemma BackTakes(env: Env, j: Handle, h: seq<Entry>, v: seq<nat>)
    requires InBounds(j, |h|) && v == Behind(j, h, env.filter)
    ensures v != [] ==>
      var at := v[|v| - 1];
      && PreviousSkip(j, h, env.filter, 1) == (j.(pos := On(at)), 1) && at < |h|
      && Rev(v) == [at] + Rev(Behind(j.(pos := On(at)), h, env.filter))
  {
    if v != [] {
      var last := |v| - 1;
      VisibleCut(env.filter, j.matches, h, j.head, j.pos.at, last);
      assert v == v[..last] + [v[last]];
      RevSnoc(v[..last], v[last]);
    }
  }

  lemma OnTakes(env: Env, j: Handle, h: seq<Entry>, v: seq<nat>)
    requires InBounds(j, |h|) && v == Ahead(j, h, env.filter)
    ensures v != [] ==>
      && NextSkip(j, h, env.filter, 1) == (j.(pos := On(v[0])), 1) && v[0] < |h|
      && v == [v[0]] + Ahead(j.(pos := On(v[0])), h, env.filter)
  {
    if v != [] {
      VisibleCut(env.filter, j.matches, h, After(j.pos), |h|, 0);
    }
  }

  /** Filling the buffer takes the first entry awaited; it stops only at the limit or when none is left. */
  lemma LoadTakes(env: Env, st: State, h: seq<Entry>, since: int, now: int)
    requires InBounds(st.journal, |h|)
    ensures var (q, how) := Load(env, st, h, since, now);
      match how
      case Kept => q == st
      case AtEnd => q == st && (LimitReached(st) || Awaiting(env, st, h) == [])
      case Pinged => Awaiting(env, q, h) == Awaiting(env, st, h) == []
      case Took(i) => i < |h| && Awaiting(env, st, h) == [i] + Awaiting(env, q, h)
  {
    MoveTakes(env, st, h);
  }

  function PendingSize(st: State): nat {
    match st.pending case None => 0 case Some(s) => 1 + |s|
  }

  /** With the clock standing still every read that is not EOF uses something up. */
  lemma ReadShrinks(env: Env, st: State, h: seq<Entry>, now: int, bufLen: nat)
    requires InBounds(st.journal, |h|) && bufLen > 0
    ensures var (q, how, r) := ReadFrom(env, st, h, now, now, bufLen);
      r.Some? ==>
        || |Awaiting(env, q, h)| < |Awaiting(env, st, h)|
        || (|Awaiting(env, q, h)| == |Awaiting(env, st, h)|
            && ((IdleLongEnough(st.eofTime, now) && !IdleLongEnough(q.eofTime, now))
                || (q.eofTime == st.eofTime && PendingSize(q) < PendingSize(st))))
  {
    LoadTakes(env, st, h, now, now);
    var (loaded, how) := Load(env, st, h, now, now);
    if how != AtEnd {
      var (q, _, _) := ReadFrom(env, st, h, now, now, bufLen);
      assert Awaiting(env, q, h) == Awaiting(env, loaded, h);
    }
  }

  /** A load and the clock when it happened. */
  datatype Stamp = Stamp(how: Loaded, at: int)

  /** One read of a copy: entries written before it, its two clock readings and the size of its buffer. */
  datatype Tick = Tick(es: seq<Entry>, since: int, now: int, bufLen: nat)

  /** A copy: the reader and the history afterwards, the bytes, the loads that brought them, and whether EOF
      ended it. */
  datatype Copied = Copied(st: State, h: seq<Entry>, out: string, loads: seq<Stamp>, eof: bool)

  /** io.Copy from the reader, for these reads or until one of them is EOF. */
  function CopyAll(env: Env, st: State, h: seq<Entry>, ticks: seq<Tick>): (c: Copied)
    requires InBounds(st.journal, |h|)
    ensures InBounds(c.st.journal, |c.h|) && h <= c.h
    decreases |ticks|
  {
    if ticks == [] then Copied(st, h, "", [], false)
    else
      var t, grown := ticks[0], h + ticks[0].es;
      var (q, how, r) := ReadFrom(env, st, grown, t.since, t.now, t.bufLen);
      if r == None then Copied(q, grown, "", [], true)
      else Before(r.value, [Stamp(how, t.now)], CopyAll(env, q, grown, ticks[1..]))
  }

  /** A copy with bytes and loads that came before it. */
  function Before(out: string, loads: seq<Stamp>, c: Copied): Copied {
    c.(out := out + c.out, loads := loads + c.loads)
  }

  lemma BeforeBefore(o1: string, l1: seq<Stamp>, o2: string, l2: seq<Stamp>, c: Copied)
    ensures Before(o1, l1, Before(o2, l2, c)) == Before(o1 + o2, l1 + l2, c)
  {
    Regroup(o1, o2, c.out);
    Regroup(l1, l2, c.loads);
  }

  lemma BeforeNothing(out: string, loads: seq<Stamp>, st: State, h: seq<Entry>, eof: bool)
    ensures Before(out, loads, Copied(st, h, "", [], eof)) == Copied(st, h, out, loads, eof)
  {
    assert out + "" == out && loads + [] == loads;
  }

  lemma {:induction false} CopyAllStep(env: Env, st: State, h: seq<Entry>, t: Tick, more: seq<Tick>)
    requires InBounds(st.journal, |h|)
    ensures var read := ReadFrom(env, st, h + t.es, t.since, t.now, t.bufLen);
      CopyAll(env, st, h, [t] + more)
      == if read.2 == None then Copied(read.0, h + t.es, "", [], true)
         else Before(read.2.value, [Stamp(read.1, t.now)], CopyAll(env, read.0, h + t.es, more))
  {
    assert ([t] + more)[1..] == more;
  }

  /** Reads while the clock and the journal stand still. */
  function Still(k: nat, now: int, bufLen: nat): seq<Tick> {
    if k == 0 then [] else [Tick([], now, now, bufLen)] + Still(k - 1, now, bufLen)
  }

  /** A copy ends: with the clock and the journal standing still, some number of reads gets to EOF. */
  lemma {:induction false} CopyEnds(env: Env, st: State, h: seq<Entry>, now: int, bufLen: nat) returns (k: nat)
    requires InBounds(st.journal, |h|) && bufLen > 0
    ensures CopyAll(env, st, h, Still(k, now, bufLen)).eof
    decreases |Awaiting(env, st, h)|, if IdleLongEnough(st.eofTime, now) then 1 else 0, PendingSize(st)
  {
    var (q, how, r) := ReadFrom(env, st, h, now, now, bufLen);
    assert h + [] == h;
    k := 0;
    if r.Some? {
      ReadShrinks(env, st, h, now, bufLen);
      k := CopyEnds(env, q, h, now, bufLen);
    }
    k := k + 1;
    CopyAllStep(env, st, h, Tick([], now, now, bufLen), Still(k - 1, now, bufLen));
  }

  /** Reader.SeekCursor on a handle: seek, advance, and check that there is a current entry. */
  function SeekCursor(env: Env, j: Handle, h: seq<Entry>, c: string, landing: nat): (r: (Handle, bool))
    requires InBounds(j, |h|)
    ensures InBounds(r.0, |h|)
  {
    var (k, _) := NextSkip(SeekTo(j, h, c, landing), h, env.filter, 1);
    (k, k.pos.On?)
  }

  datatype Opt =
    | OptionMatch(ms: seq<MatchPair>)
    | OptionMatchOR(ms: seq<MatchPair>)
    | OptionSeekCursor(c: string)
    | OptionLimit(n: nat)
    | OptionSkipNext(n: nat)
    | OptionSkipPrev(n: nat)
    | OptionReadReverse(reverse: bool)

  datatype OpenError = BadCursor | CursorNotFound

  /** Record a match function and apply it to the open handle. */
  function WithMatches(st: State, fn: MatchFn): State {
    st.(journal := st.journal.(matches := st.journal.matches + Ops(fn)), matchFns := st.matchFns + [fn])
  }

  function ApplyOpt(env: Env, st: State, h: seq<Entry>, opt: Opt, landing: nat): (r: Result<State, OpenError>)
    requires InBounds(st.journal, |h|)
    ensures r.Ok? ==> InBounds(r.value.journal, |h|)
  {
    match opt
    case OptionMatch(ms) => Ok(WithMatches(st, All(ms)))
    case OptionMatchOR(ms) => Ok(WithMatches(st, Any(ms)))
    case OptionSeekCursor(c) =>
      if c == "" then Ok(st)
      else if !Cursor.Valid(c) then Err(BadCursor)
      else
        var (j, found) := SeekCursor(env, st.journal, h, c, landing);
        if found then Ok(st.(cursor := c, journal := j)) else Err(CursorNotFound)
    case OptionLimit(n) => Ok(st.(limit := n, useLimit := n > 0))
    case OptionSkipNext(n) =>
      if n == 0 then Ok(st)
      else
        var (j, moved) := NextSkip(st.journal, h, env.filter, n);
        Ok(st.(journal := j, skippedNext := moved))
    case OptionSkipPrev(n) =>
      if n == 0 then Ok(st)
      else
        var from := if st.cursor == "" then SeekTail(st.journal, h) else st.journal;
        var (j, moved) := PreviousSkip(from, h, env.filter, n);
        Ok(st.(journal := j, skippedPrev := moved))
    case OptionReadReverse(b) => Ok(st.(reverse := b))
  }

  function ApplyOpts(env: Env, st: State, h: seq<Entry>, opts: seq<Opt>, landing: nat): (r: Result<State, OpenError>)
    requires InBounds(st.journal, |h|)
    ensures r.Ok? ==> InBounds(r.value.journal, |h|)
    decreases |opts|
  {
    if opts == [] then Ok(st)
    else
      match ApplyOpt(env, st, h, opts[0], landing)
      case Err(e) => Err(e)
      case Ok(q) => ApplyOpts(env, q, h, opts[1..], landing)
  }

  /** A reader on a freshly opened handle. */
  function Fresh(head: nat): State {
    State(Handle(head, [], Gap(head)), "", 0, false, 0, 0, false, None, None, 0, [])
  }

  datatype Wake = Nop | Appended | Invalidated

  datatype FollowError = NoCurrentEntry

  /** The reopening in Follow: a new handle, the recorded matches again, and the saved cursor. A cursor that is
      gone is no error here. */
  function Reopen(env: Env, st: State, h: seq<Entry>, head: nat, landing: nat): (r: Result<State, FollowError>)
    requires InBounds(st.journal, |h|) && head <= |h|
    ensures r.Ok? ==> InBounds(r.value.journal, |h|)
  {
    if st.journal.pos.Gap? then Err(NoCurrentEntry)
    else
      var anew := Handle(head, Replay(st.matchFns), Gap(head));
      Ok(st.(journal := SeekCursor(env, anew, h, h[st.journal.pos.at].cursor, landing).0))
  }

  /** Follow, once its copy has ended: with nothing copied, wait, and reopen when the journal was invalidated. */
  function Follow(env: Env, c: Copied, wake: Wake, head: nat, landing: nat): (r: (State, Option<FollowError>))
    requires InBounds(c.st.journal, |c.h|) && head <= |c.h|
    ensures InBounds(r.0.journal, |c.h|)
  {
    if c.out != "" || wake != Invalidated then (c.st, None)
    else
      match Reopen(env, c.st, c.h, head, landing)
      case Err(e) => (c.st, Some(e))
      case Ok(reopened) => (reopened, None)
  }

  class Reader {
    const filter: Filter
    const format: Format
    var journal: Handle
    var cursor: string
    var limit: nat
    var useLimit: bool
    var skippedNext: nat
    var skippedPrev: nat
    var readReverse: bool
    var eofTime: Option<int>
    var msgReader: Option<string>
    var n: nat
    var matchFns: seq<MatchFn>

    ghost function Now(): State
      reads this
    {
      State(journal, cursor, limit, useLimit, skippedNext, skippedPrev, readReverse, eofTime, msgReader, n, matchFns)
    }

    ghost function Fixed(): Env {
      Env(filter, format)
    }

    constructor (filter: Filter, format: Format, head: nat)
      ensures this.filter == filter && this.format == format && Now() == Fresh(head)
    {
      this.filter, this.format := filter, format;
      journal := Handle(head, [], Gap(head));
      cursor, limit, useLimit, skippedNext, skippedPrev, readReverse := "", 0, false, 0, 0, false;
      eofTime, msgReader, n, matchFns := None, None, 0, [];
    }

    /** The loop of a match function over its pairs. */
    static method ApplyMatchFn(j: Handle, fn: MatchFn) returns (r: Handle)
      ensures r == j.(matches := j.matches + Ops(fn))
    {
      r := j;
      for i := 0 to |fn.ms|
        invariant r == j.(matches := r.matches)
        invariant r.matches + Ops(fn.(ms := fn.ms[i..])) == j.matches + Ops(fn)
      {
        assert fn.ms[i..][1..] == fn.ms[i + 1..];
        ghost var rest := Ops(fn.(ms := fn.ms[i + 1..]));
        ghost var before := r.matches;
        r := r.(matches := r.matches + [AddMatch(Show(fn.ms[i]))]);
        if fn.Any? {
          r := r.(matches := r.matches + [AddDisjunction]);
          assert before + ([AddMatch(Show(fn.ms[i])), AddDisjunction] + rest) == r.matches + rest;
        } else {
          assert before + ([AddMatch(Show(fn.ms[i]))] + rest) == r.matches + rest;
        }
      }
      assert r.matches + [] == r.matches;
    }

    method SkipNext(h: seq<Entry>, count: nat)
      requires InBounds(journal, |h|)
      modifies this`journal, this`skippedNext
      ensures var (j, moved) := NextSkip(old(journal), h, filter, count);
        Now() == old(Now()).(journal := j, skippedNext := moved)
    {
      journal, skippedNext := NextSkip(journal, h, filter, count).0, NextSkip(journal, h, filter, count).1;
    }

    method SkipPrev(h: seq<Entry>, count: nat)
      requires InBounds(journal, |h|)
      modifies this`journal, this`skippedPrev
      ensures var from := if cursor == "" then SeekTail(old(journal), h) else old(journal);
        var (j, moved) := PreviousSkip(from, h, filter, count);
        Now() == old(Now()).(journal := j, skippedPrev := moved)
    {
      if cursor == "" {
        journal := SeekTail(journal, h);
      }
      journal, skippedPrev := PreviousSkip(journal, h, filter, count).0, PreviousSkip(journal, h, filter, count).1;
    }

    method SeekTo(h: seq<Entry>, c: string, landing: nat) returns (found: bool)
      requires InBounds(journal, |h|)
      modifies this`journal
      ensures (journal, found) == SeekCursor(Fixed(), old(journal), h, c, landing)
    {
      journal := Journal.SeekTo(journal, h, c, landing);
      journal := NextSkip(journal, h, filter, 1).0;
      found := journal.pos.On?;
    }

    /** Apply a match function and keep it for other handles. */
    method Record(fn: MatchFn)
      modifies this`journal, this`matchFns
      ensures Now() == WithMatches(old(Now()), fn)
    {
      journal := ApplyMatchFn(journal, fn);
      matchFns := matchFns + [fn];
    }

    /** Go to the entry with a cursor, if one is given. */
    method Seek(h: seq<Entry>, c: string, landing: nat) returns (err: Option<OpenError>)
      requires InBounds(journal, |h|)
      modifies this`journal, this`cursor
      ensures match ApplyOpt(Fixed(), old(Now()), h, OptionSeekCursor(c), landing)
        case Ok(st) => err == None && Now() == st
        case Err(e) => err == Some(e)
    {
      if c == "" {
        return None;
      }
      var valid := Cursor.ValidateCursor(c);
      if !valid {
        return Some(BadCursor);
      }
      cursor := c;
      var found := SeekTo(h, c, landing);
      err := if found then None else Some(CursorNotFound);
    }

    /** Apply one functional option. */
    method Apply(h: seq<Entry>, opt: Opt, landing: nat) returns (err: Option<OpenError>)
      requires InBounds(journal, |h|)
      modifies this
      ensures match ApplyOpt(Fixed(), old(Now()), h, opt, landing)
        case Ok(st) => err == None && Now() == st
        case Err(e) => err == Some(e)
    {
      err := None;
      match opt
      case OptionMatch(ms) => Record(All(ms));
      case OptionMatchOR(ms) => Record(Any(ms));
      case OptionSeekCursor(c) => err := Seek(h, c, landing);
      case OptionLimit(count) =>
        limit, useLimit := count, count > 0;
      case OptionSkipNext(count) =>
        if count > 0 {
          SkipNext(h, count);
        }
      case OptionSkipPrev(count) =>
        if count > 0 {
          SkipPrev(h, count);
        }
      case OptionReadReverse(b) =>
        readReverse := b;
    }

    /** The move before an entry is read, which the first read may leave out. */
    method Advance(h: seq<Entry>) returns (moved: nat)
      requires InBounds(journal, |h|)
      modifies this`journal
      ensures (journal, moved) == Move(Fixed(), old(Now()), h)
    {
      var skipRead := false;
      if n == 0 && journal.pos.On? {
        if h[journal.pos.at].cursor != cursor {
          skipRead := true;
        }
      }
      if skipRead {
        return 1;
      }
      if readReverse {
        journal, moved := PreviousSkip(journal, h, filter, 1).0, PreviousSkip(journal, h, filter, 1).1;
      } else {
        journal, moved := NextSkip(journal, h, filter, 1).0, NextSkip(journal, h, filter, 1).1;
      }
    }

    /** The part of Read that runs when no entry is partly delivered. */
    method Fill(h: seq<Entry>, since: int, now: int) returns (ghost how: Loaded, eof: bool)
      requires InBounds(journal, |h|) && msgReader == None
      modifies this`journal, this`eofTime, this`msgReader, this`limit, this`n
      ensures (Now(), how) == Load(Fixed(), old(Now()), h, since, now) && eof == how.AtEnd?
    {
      if useLimit && limit == 0 {
        return AtEnd, true;
      }
      var moved := Advance(h);
      if moved == 0 {
        MoveStays(Fixed(), old(Now()), h);
        if format.EventStream? {
          if !IdleLongEnough(eofTime, since) {
            return AtEnd, true;
          }
          msgReader, eofTime := Some(PING), Some(now);
          return Pinged, false;
        }
        return AtEnd, true;
      }
      eofTime := Some(now);
      msgReader := Some(FormatEntry(format, h[journal.pos.at]));
      if useLimit && limit > 0 {
        limit := limit - 1;
      }
      n := n + 1;
      return Took(journal.pos.at), false;
    }

    /** Read into a buffer of `bufLen` bytes; None is EOF. */
    method Read(h: seq<Entry>, since: int, now: int, bufLen: nat) returns (r: Option<string>, ghost how: Loaded)
      requires InBounds(journal, |h|)
      modifies this`journal, this`eofTime, this`msgReader, this`limit, this`n
      ensures (Now(), how, r) == ReadFrom(Fixed(), old(Now()), h, since, now, bufLen)
    {
      how := Kept;
      if msgReader == None {
        var eof;
        how, eof := Fill(h, since, now);
        if eof {
          return None, how;
        }
      }
      var k := Min(bufLen, |msgReader.value|);
      r := Some(msgReader.value[..k]);
      msgReader := if msgReader.value[k..] == "" then None else Some(msgReader.value[k..]);
    }

    /** io.Copy from this reader: the bytes, the history at the end, and whether it got to EOF. */
    method CopyTo(h: seq<Entry>, ticks: seq<Tick>)
      returns (out: string, grown: seq<Entry>, eof: bool, ghost loads: seq<Stamp>)
      requires InBounds(journal, |h|)
      modifies this`journal, this`eofTime, this`msgReader, this`limit, this`n
      ensures Copied(Now(), grown, out, loads, eof) == CopyAll(Fixed(), old(Now()), h, ticks)
    {
      out, grown, eof, loads := "", h, false, [];
      ghost var env, whole := Fixed(), CopyAll(Fixed(), Now(), h, ticks);
      assert out + whole.out == whole.out && loads + whole.loads == whole.loads && ticks[0..] == ticks;
      for i := 0 to |ticks|
        invariant InBounds(journal, |grown|) && Fixed() == env && !eof
        invariant whole == Before(out, loads, CopyAll(env, Now(), grown, ticks[i..]))
      {
        ghost var st, from := Now(), grown;
        var Tick(es, since, now, bufLen) := ticks[i];
        grown := grown + es;
        var r, how := Read(grown, since, now, bufLen);
        assert ticks[i..] == [ticks[i]] + ticks[i + 1..];
        CopyAllStep(env, st, from, ticks[i], ticks[i + 1..]);
        if r == None {
          BeforeNothing(out, loads, Now(), grown, true);
          eof := true;
          return;
        }
        BeforeBefore(out, loads, r.value, [Stamp(how, now)], CopyAll(env, Now(), grown, ticks[i + 1..]));
        out, loads := out + r.value, loads + [Stamp(how, now)];
      }
      BeforeNothing(out, loads, Now(), grown, false);
    }

    /** Apply the recorded match functions to a new handle, in order. */
    method Rematch(j: Handle) returns (r: Handle)
      requires j.matches == []
      ensures r == j.(matches := Replay(matchFns))
    {
      r := j;
      for i := 0 to |matchFns|
        invariant r == j.(matches := Replay(matchFns[..i]))
      {
        assert matchFns[..i + 1][..i] == matchFns[..i];
        r := ApplyMatchFn(r, matchFns[i]);
      }
      assert matchFns[..|matchFns|] == matchFns;
    }

    /** Follow: copy what there is; with nothing copied, wait, and reopen when the journal was invalidated. */
    method FollowOnce(h: seq<Entry>, ticks: seq<Tick>, wake: Wake, head: nat, landing: nat)
      returns (out: string, err: Option<FollowError>, ghost c: Copied)
      requires InBounds(journal, |h|) && head <= |h| && CopyAll(Fixed(), Now(), h, ticks).eof
      modifies this`journal, this`eofTime, this`msgReader, this`limit, this`n
      ensures c == CopyAll(Fixed(), old(Now()), h, ticks) && out == c.out
      ensures (Now(), err) == Follow(Fixed(), c, wake, head, landing)
    {
      var grown, eof;
      ghost var loads;
      out, grown, eof, loads := CopyTo(h, ticks);
      c := Copied(Now(), grown, out, loads, eof);
      err := None;
      if |out| > 0 {
        return;
      }
      if wake == Invalidated {
        if journal.pos.Gap? {
          return out, Some(NoCurrentEntry), c;
        }
        var saved := grown[journal.pos.at].cursor;
        journal := Rematch(Handle(head, [], Gap(head)));
        var _ := SeekTo(grown, saved, landing);
      }
    }
  }

  method NewReader(filter: Filter, format: Format, head: nat, h: seq<Entry>, opts: seq<Opt>, landing: nat)
    returns (r: Result<Reader, OpenError>)
    requires head <= |h|
    ensures match ApplyOpts(Env(filter, format), Fresh(head), h, opts, landing)
      case Err(e) => r == Err(e)
      case Ok(st) => r.Ok? && fresh(r.value) && r.value.Fixed() == Env(filter, format) && r.value.Now() == st
  {
    var reader := new Reader(filter, format, head);
    for i := 0 to |opts|
      invariant InBounds(reader.journal, |h|)
      invariant ApplyOpts(Env(filter, format), reader.Now(), h, opts[i..], landing)
             == ApplyOpts(Env(filter, format), Fresh(head), h, opts, landing)
    {
      var err := reader.Apply(h, opts[i], landing);
      if err.Some? {
        return Err(err.value);
      }
    }
    r := Ok(reader);
  }
}
