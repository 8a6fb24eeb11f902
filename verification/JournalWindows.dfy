/** Which entries a request selects: the options of the range handler (api/v1/handlers.go), in its order. */
module JournalWindows {
  import opened Prelude
  import opened Text
  import opened Journal
  import opened JournalReader
  import opened JournalRuns
  import Cursor

  datatype Window = Window(cursor: string, limit: nat, next: nat, prev: nat, reverse: bool)

  function RangeOptions(ms: seq<MatchPair>, w: Window): seq<Opt> {
    [OptionMatch(ms), OptionSeekCursor(w.cursor), OptionLimit(w.limit), OptionSkipNext(w.next),
     OptionSkipPrev(w.prev), OptionReadReverse(w.reverse)]
  }

  /** The matching entries a new handle can see. */
  function Matching(env: Env, ms: seq<MatchPair>, h: seq<Entry>, head: nat): seq<nat> {
    Visible(env.filter, Ops(All(ms)), h, head, |h|)
  }

  function Matched(ms: seq<MatchPair>, head: nat): State {
    WithMatches(Fresh(head), All(ms))
  }

  /** The options after the cursor, which cannot fail. */
  function Positioned(env: Env, st: State, h: seq<Entry>, w: Window): (q: State)
    requires InBounds(st.journal, |h|)
    ensures InBounds(q.journal, |h|)
  {
    var limited := st.(limit := w.limit, useLimit := w.limit > 0);
    var ahead := ApplyOpt(env, limited, h, OptionSkipNext(w.next), 0).value;
    var back := ApplyOpt(env, ahead, h, OptionSkipPrev(w.prev), 0).value;
    back.(reverse := w.reverse)
  }

  lemma {:induction false} RangeApplies(env: Env, h: seq<Entry>, head: nat, ms: seq<MatchPair>, w: Window, landing: nat)
    requires head <= |h|
    ensures ApplyOpts(env, Fresh(head), h, RangeOptions(ms, w), landing)
      == match ApplyOpt(env, Matched(ms, head), h, OptionSeekCursor(w.cursor), landing)
         case Err(e) => Err(e)
         case Ok(st) => Ok(Positioned(env, st, h, w))
  {
    var opts := RangeOptions(ms, w);
    assert opts[1..][0] == opts[1] && opts[1..][1..] == opts[2..];
    match ApplyOpt(env, Matched(ms, head), h, OptionSeekCursor(w.cursor), landing)
    case Err(_) =>
    case Ok(st) =>
      TailApplies(env, st, h, w, landing);
      assert opts[2..] == TailOptions(w);
  }

  function TailOptions(w: Window): seq<Opt> {
    [OptionLimit(w.limit), OptionSkipNext(w.next), OptionSkipPrev(w.prev), OptionReadReverse(w.reverse)]
  }

  lemma {:induction false} TailApplies(env: Env, st: State, h: seq<Entry>, w: Window, landing: nat)
    requires InBounds(st.journal, |h|)
    ensures ApplyOpts(env, st, h, TailOptions(w), landing) == Ok(Positioned(env, st, h, w))
  {
    var limited := st.(limit := w.limit, useLimit := w.limit > 0);
    var ahead := ApplyOpt(env, limited, h, OptionSkipNext(w.next), landing).value;
    var back := ApplyOpt(env, ahead, h, OptionSkipPrev(w.prev), landing).value;
    var last := [OptionReadReverse(w.reverse)];
    var skips := [OptionSkipNext(w.next)] + ([OptionSkipPrev(w.prev)] + last);
    assert TailOptions(w) == [OptionLimit(w.limit)] + skips && last == last + [];
    OptionFirst(env, st, h, OptionLimit(w.limit), skips, landing, limited);
    OptionFirst(env, limited, h, OptionSkipNext(w.next), [OptionSkipPrev(w.prev)] + last, landing, ahead);
    OptionFirst(env, ahead, h, OptionSkipPrev(w.prev), last, landing, back);
    OptionFirst(env, back, h, OptionReadReverse(w.reverse), [], landing, back.(reverse := w.reverse));
  }

  lemma {:induction false} OptionFirst(env: Env, st: State, h: seq<Entry>, opt: Opt, rest: seq<Opt>, landing: nat,
                                       q: State)
    requires InBounds(st.journal, |h|) && ApplyOpt(env, st, h, opt, landing) == Ok(q)
    ensures ApplyOpts(env, st, h, [opt] + rest, landing) == ApplyOpts(env, q, h, rest, landing)
  {
    assert ([opt] + rest)[1..] == rest;
  }

  /** Standing on the r-th matching entry before the first read: it comes first, unless the client named it. */
  lemma {:induction false} AwaitsFrom(env: Env, st: State, h: seq<Entry>, v: seq<nat>, r: nat)
    requires v == Visible(env.filter, st.journal.matches, h, st.journal.head, |h|) && r < |v|
    requires InBounds(st.journal, |h|) && st.n == 0 && st.journal.pos == On(v[r])
    ensures v[r] < |h|
    ensures Awaiting(env, st, h) ==
      (if h[v[r]].cursor != st.cursor then [v[r]] else []) + (if st.reverse then Rev(v[..r]) else v[r + 1..])
  {
    BeyondAt(env, st.journal, st.reverse, h, v, r);
  }

  /** The same for an entry the client did not name. */
  lemma {:induction false} AwaitsUnnamed(env: Env, st: State, h: seq<Entry>, v: seq<nat>, r: nat)
    requires v == Visible(env.filter, st.journal.matches, h, st.journal.head, |h|) && r < |v|
    requires InBounds(st.journal, |h|) && st.n == 0 && st.journal.pos == On(v[r])
    requires v[r] < |h| ==> h[v[r]].cursor != st.cursor
    ensures Awaiting(env, st, h) == if st.reverse then [v[r]] + Rev(v[..r]) else v[r..]
  {
    AwaitsFrom(env, st, h, v, r);
    HeadTail(v, r);
  }

  lemma HeadTail(v: seq<nat>, r: nat)
    requires r < |v|
    ensures v[r..] == [v[r]] + v[r + 1..]
  {
  }

  lemma {:induction false} BeyondAt(env: Env, j: Handle, reverse: bool, h: seq<Entry>, v: seq<nat>, r: nat)
    requires v == Visible(env.filter, j.matches, h, j.head, |h|) && r < |v|
    requires InBounds(j, |h|) && j.pos == On(v[r])
    ensures Beyond(env, j, reverse, h) == if reverse then Rev(v[..r]) else v[r + 1..]
  {
    var at := v[r];
    BothSides(env, j.matches, h, j.head, v, r, at);
    BeyondOn(env, j, reverse, h, at, v[..r], v[r + 1..]);
  }

  lemma {:induction false} BeyondOn(env: Env, j: Handle, reverse: bool, h: seq<Entry>, at: nat, before: seq<nat>,
                                    after: seq<nat>)
    requires InBounds(j, |h|) && j.pos == On(at) && at < |h|
    requires before == Visible(env.filter, j.matches, h, j.head, at)
    requires after == Visible(env.filter, j.matches, h, at + 1, |h|)
    ensures Beyond(env, j, reverse, h) == if reverse then Rev(before) else after
  {
  }

  lemma BothSides(env: Env, ops: seq<MatchOp>, h: seq<Entry>, head: nat, v: seq<nat>, r: nat, at: nat)
    requires v == Visible(env.filter, ops, h, head, |h|) && r < |v| && at == v[r]
    ensures at < |h| && Visible(env.filter, ops, h, head, at) == v[..r]
    ensures Visible(env.filter, ops, h, at + 1, |h|) == v[r + 1..]
  {
    VisibleCut(env.filter, ops, h, head, |h|, r);
  }

  /** A reader just opened with its matches. */
  ghost predicate JustMatched(st: State, h: seq<Entry>) {
    && st.journal.head <= |h| && st.journal.pos == Gap(st.journal.head)
    && st.cursor == "" && st.n == st.skippedNext == st.skippedPrev == 0 && !st.reverse
    && forall i :: 0 <= i < |h| ==> h[i].cursor != ""
  }

  function Seen(env: Env, st: State, h: seq<Entry>): seq<nat> {
    Visible(env.filter, st.journal.matches, h, st.journal.head, |h|)
  }

  /** What a request without a cursor awaits, `v` being the matching entries, and the skip counts reported: without
      skips everything, or nothing in reverse, as the handle stands before the head; after skip_prev=n from the n-th
      entry from the end, and otherwise after skip_next=n from the n-th entry, which is read and not passed over;
      there on towards the tail, or towards the head in reverse. */
  ghost predicate FromEnds(env: Env, st: State, h: seq<Entry>, w: Window, v: seq<nat>)
    requires InBounds(st.journal, |h|)
  {
    var k := if w.prev > 0 then |v| - Min(w.prev, |v|) else Min(w.next, |v|) - 1;
    && Awaiting(env, st, h) ==
         (if w.prev == 0 && w.next == 0 then (if w.reverse then [] else v)
          else if v == [] then []
          else if w.reverse then [v[k]] + Rev(v[..k]) else v[k..])
    && st.skippedNext == Min(w.next, |v|) && st.skippedPrev == Min(w.prev, |v|)
  }

  lemma SkipPrevWindow(env: Env, st: State, h: seq<Entry>, w: Window)
    requires JustMatched(st, h) && w.prev > 0
    ensures FromEnds(env, Positioned(env, st, h, w), h, w, Seen(env, st, h))
  {
    var q, v := Positioned(env, st, h, w), Seen(env, st, h);
    SkipPrevFromTail(env, st, h, w);
    if v != [] {
      var k := |v| - Min(w.prev, |v|);
      AwaitsUnnamed(env, q, h, v, k);
    }
  }

  lemma SkipPrevFromTail(env: Env, st: State, h: seq<Entry>, w: Window)
    requires JustMatched(st, h) && w.prev > 0
    ensures var q, v := Positioned(env, st, h, w), Seen(env, st, h);
      && q.journal.matches == st.journal.matches && q.journal.head == st.journal.head
      && q.reverse == w.reverse && q.cursor == "" && q.n == 0
      && q.skippedNext == Min(w.next, |v|) && q.skippedPrev == Min(w.prev, |v|)
      && q.journal.pos == if v == [] then Gap(|h|) else On(v[|v| - Min(w.prev, |v|)])
  {
  }

  lemma SkipNextWindow(env: Env, st: State, h: seq<Entry>, w: Window)
    requires JustMatched(st, h) && w.prev == 0
    ensures FromEnds(env, Positioned(env, st, h, w), h, w, Seen(env, st, h))
  {
    var q, v := Positioned(env, st, h, w), Seen(env, st, h);
    if w.next > 0 && v != [] {
      NextFromHead(env, st, h, w, v);
      AwaitsUnnamed(env, q, h, v, Min(w.next, |v|) - 1);
    } else {
      StaysAtHead(env, st, h, w, v);
      HeadAwaits(env, q, h, v);
    }
  }

  lemma StaysAtHead(env: Env, st: State, h: seq<Entry>, w: Window, v: seq<nat>)
    requires JustMatched(st, h) && w.prev == 0 && v == Seen(env, st, h) && (w.next == 0 || v == [])
    ensures var q := Positioned(env, st, h, w);
      q.journal == st.journal && q.skippedNext == q.skippedPrev == 0 && q.reverse == w.reverse
  {
  }

  lemma NextFromHead(env: Env, st: State, h: seq<Entry>, w: Window, v: seq<nat>)
    requires JustMatched(st, h) && w.prev == 0 && w.next > 0 && v == Seen(env, st, h) && v != []
    ensures var q := Positioned(env, st, h, w);
      && q.journal == st.journal.(pos := On(v[Min(w.next, |v|) - 1]))
      && q.skippedNext == Min(w.next, |v|) && q.skippedPrev == 0
      && q.cursor == "" && q.n == 0 && q.reverse == w.reverse
  {
  }

  lemma HeadAwaits(env: Env, st: State, h: seq<Entry>, v: seq<nat>)
    requires st.journal.head <= |h| && st.journal.pos == Gap(st.journal.head) && v == Seen(env, st, h)
    ensures Awaiting(env, st, h) == if st.reverse then [] else v
  {
  }

  lemma MatchedIsFresh(env: Env, ms: seq<MatchPair>, h: seq<Entry>, head: nat)
    requires head <= |h| && forall i :: 0 <= i < |h| ==> h[i].cursor != ""
    ensures JustMatched(Matched(ms, head), h)
    ensures Seen(env, Matched(ms, head), h) == Matching(env, ms, h, head)
    ensures Consistent(env, Matched(ms, head), h)
  {
    MatchedConsistent(env, ms, h, head);
  }

  /** Requests without a cursor. */
  lemma {:induction false} WindowFromEnds(env: Env, h: seq<Entry>, head: nat, ms: seq<MatchPair>, w: Window,
                                          landing: nat)
    requires head <= |h| && w.cursor == "" && forall i :: 0 <= i < |h| ==> h[i].cursor != ""
    ensures var r := ApplyOpts(env, Fresh(head), h, RangeOptions(ms, w), landing);
      r.Ok? && FromEnds(env, r.value, h, w, Matching(env, ms, h, head))
  {
    RangeApplies(env, h, head, ms, w, landing);
    MatchedIsFresh(env, ms, h, head);
    if w.prev > 0 {
      SkipPrevWindow(env, Matched(ms, head), h, w);
    } else {
      SkipNextWindow(env, Matched(ms, head), h, w);
    }
  }

  /** Reading in reverse without a cursor or skip_prev delivers nothing if and only if there is no skip_next either, or
      nothing to read. */
  lemma {:induction false} ReverseFromHeadIsEmpty(env: Env, h: seq<Entry>, head: nat, ms: seq<MatchPair>, w: Window,
                                                  landing: nat)
    requires head <= |h| && forall i :: 0 <= i < |h| ==> h[i].cursor != ""
    requires w.cursor == "" && w.prev == 0 && w.reverse
    ensures var r := ApplyOpts(env, Fresh(head), h, RangeOptions(ms, w), landing);
      r.Ok? && (Awaiting(env, r.value, h) == [] <==> w.next == 0 || Matching(env, ms, h, head) == [])
  {
    WindowFromEnds(env, h, head, ms, w, landing);
  }

  /** A cursor names the entry k, which the handle can still see. */
  ghost predicate Names(h: seq<Entry>, head: nat, cursor: string, k: nat) {
    && head <= k < |h| && DistinctCursors(h)
    && cursor == h[k].cursor && cursor != "" && Cursor.Valid(cursor)
  }

  /** A request is refused for its cursor if and only if it has one that is not written as a cursor. */
  lemma {:induction false} BadCursorIff(env: Env, h: seq<Entry>, head: nat, ms: seq<MatchPair>, w: Window, landing: nat)
    requires head <= |h|
    ensures ApplyOpts(env, Fresh(head), h, RangeOptions(ms, w), landing) == Err(BadCursor)
      <==> w.cursor != "" && !Cursor.Written(w.cursor)
  {
    RangeApplies(env, h, head, ms, w, landing);
    Cursor.WrittenIff(w.cursor);
  }

  /** Seeking the cursor of entry k stands on the first matching entry from there; without one it fails. */
  lemma {:induction false} SeekNamed(env: Env, st: State, h: seq<Entry>, cursor: string, k: nat, landing: nat)
    requires JustMatched(st, h) && Names(h, st.journal.head, cursor, k)
    ensures var r, on := ApplyOpt(env, st, h, OptionSeekCursor(cursor), landing),
                         Visible(env.filter, st.journal.matches, h, k, |h|);
      if on == [] then r == Err(CursorNotFound)
      else r == Ok(st.(cursor := cursor, journal := st.journal.(pos := On(on[0])))) && k <= on[0] < |h|
  {
    assert IndexOf(h, st.journal.head, cursor) == k;
    var on := Visible(env.filter, st.journal.matches, h, k, |h|);
    assert SeekTo(st.journal, h, cursor, landing) == st.journal.(pos := Gap(k));
    if on != [] {
      VisibleCut(env.filter, st.journal.matches, h, k, |h|, 0);
    }
  }

  /** Skipping on from the i-th matching entry, either way, as far as there are entries. */
  lemma {:induction false} SkipsAt(env: Env, j: Handle, h: seq<Entry>, v: seq<nat>, i: nat, n: nat)
    requires InBounds(j, |h|) && v == Visible(env.filter, j.matches, h, j.head, |h|)
    requires i < |v| && j.pos == On(v[i])
    ensures NextSkip(j, h, env.filter, n) == (j.(pos := On(v[Min(i + n, |v| - 1)])), Min(n, |v| - 1 - i))
    ensures PreviousSkip(j, h, env.filter, n) == (j.(pos := On(v[Max(i - n, 0)])), Min(n, i))
  {
    BothSides(env, j.matches, h, j.head, v, i, v[i]);
  }

  /** Where a request with a cursor starts: skip_next, then skip_prev, from the i-th matching entry. */
  function StartRank(w: Window, size: nat, i: nat): (r: nat)
    requires i < size
    ensures r < size
  {
    Max(Min(i + w.next, size - 1) - w.prev, 0)
  }

  /** A reader on the i-th matching entry, with a cursor. */
  ghost predicate StandsAt(env: Env, st: State, h: seq<Entry>, v: seq<nat>, i: nat) {
    && InBounds(st.journal, |h|) && v == Seen(env, st, h) && i < |v| && st.journal.pos == On(v[i])
    && st.cursor != ""
  }

  lemma NextAt(env: Env, st: State, h: seq<Entry>, v: seq<nat>, i: nat, n: nat)
    requires StandsAt(env, st, h, v, i) && st.skippedNext == 0
    ensures var m := Min(i + n, |v| - 1);
      && ApplyOpt(env, st, h, OptionSkipNext(n), 0)
         == Ok(st.(journal := st.journal.(pos := On(v[m])), skippedNext := m - i))
      && v[m] < |h| && StandsAt(env, st.(journal := st.journal.(pos := On(v[m])), skippedNext := m - i), h, v, m)
  {
    SkipsAt(env, st.journal, h, v, i, n);
    VisibleInside(env.filter, st.journal.matches, h, st.journal.head, |h|, Min(i + n, |v| - 1));
  }

  lemma PrevAt(env: Env, st: State, h: seq<Entry>, v: seq<nat>, i: nat, n: nat)
    requires StandsAt(env, st, h, v, i) && st.skippedPrev == 0
    ensures ApplyOpt(env, st, h, OptionSkipPrev(n), 0)
         == Ok(st.(journal := st.journal.(pos := On(v[Max(i - n, 0)])), skippedPrev := Min(n, i)))
  {
    SkipsAt(env, st.journal, h, v, i, n);
  }

  lemma PositionedAt(env: Env, st: State, h: seq<Entry>, w: Window, v: seq<nat>, i: nat)
    requires StandsAt(env, st, h, v, i) && st.skippedNext == st.skippedPrev == 0
    ensures var q, m := Positioned(env, st, h, w), Min(i + w.next, |v| - 1);
      && q.journal == st.journal.(pos := On(v[StartRank(w, |v|, i)]))
      && q.cursor == st.cursor && q.n == st.n && q.reverse == w.reverse
      && q.skippedNext == m - i && q.skippedPrev == Min(w.prev, m)
  {
    var limited := st.(limit := w.limit, useLimit := w.limit > 0);
    var m := Min(i + w.next, |v| - 1);
    NextAt(env, limited, h, v, i, w.next);
    PrevAt(env, limited.(journal := st.journal.(pos := On(v[m])), skippedNext := m - i), h, v, m, w.prev);
  }

  /** What a request awaits that named entry k, `v[i]` being the first matching entry from k on: it moves by skip_next
      towards the tail, then by skip_prev towards the head, as far as there are entries, and reads on from there, or
      back in reverse; the entry it starts at is read unless it is k itself. */
  ghost predicate ReadsAround(env: Env, st: State, h: seq<Entry>, w: Window, v: seq<nat>, i: nat, k: nat) {
    && InBounds(st.journal, |h|) && i < |v|
    && var start, m := StartRank(w, |v|, i), Min(i + w.next, |v| - 1);
       && Awaiting(env, st, h)
          == (if v[start] == k then [] else [v[start]]) + (if w.reverse then Rev(v[..start]) else v[start + 1..])
       && st.skippedNext == m - i && st.skippedPrev == Min(w.prev, m)
  }

  /** Requests with the cursor of entry k, `before` and `on` being the matching entries before k and from k on. Without
      one from k on the request fails. */
  lemma {:induction false} WindowAtCursor(env: Env, h: seq<Entry>, head: nat, ms: seq<MatchPair>, w: Window, k: nat,
                                          landing: nat)
    requires Names(h, head, w.cursor, k) && forall i :: 0 <= i < |h| ==> h[i].cursor != ""
    ensures var r := ApplyOpts(env, Fresh(head), h, RangeOptions(ms, w), landing);
      var before, on := Visible(env.filter, Ops(All(ms)), h, head, k), Visible(env.filter, Ops(All(ms)), h, k, |h|);
      if on == [] then r == Err(CursorNotFound)
      else r.Ok? && ReadsAround(env, r.value, h, w, before + on, |before|, k)
  {
    RangeApplies(env, h, head, ms, w, landing);
    var before, on := Visible(env.filter, Ops(All(ms)), h, head, k), Visible(env.filter, Ops(All(ms)), h, k, |h|);
    SeekStands(env, ms, h, head, w.cursor, k, landing, before, on);
    if on != [] {
      WindowNamed(env, NamedState(ms, head, w.cursor, on[0]), h, w, k, before + on, |before|);
    }
  }

  /** The reader after the cursor option. */
  function NamedState(ms: seq<MatchPair>, head: nat, cursor: string, at: nat): State {
    var st := Matched(ms, head);
    st.(cursor := cursor, journal := st.journal.(pos := On(at)))
  }

  lemma {:induction false} SeekStands(env: Env, ms: seq<MatchPair>, h: seq<Entry>, head: nat, cursor: string, k: nat,
                                      landing: nat,
                   before: seq<nat>, on: seq<nat>)
    requires Names(h, head, cursor, k) && forall i :: 0 <= i < |h| ==> h[i].cursor != ""
    requires before == Visible(env.filter, Ops(All(ms)), h, head, k)
    requires on == Visible(env.filter, Ops(All(ms)), h, k, |h|)
    ensures ApplyOpt(env, Matched(ms, head), h, OptionSeekCursor(cursor), landing)
         == if on == [] then Err(CursorNotFound) else Ok(NamedState(ms, head, cursor, on[0]))
    ensures on != [] ==> StandsAt(env, NamedState(ms, head, cursor, on[0]), h, before + on, |before|)
  {
    MatchedIsFresh(env, ms, h, head);
    SeekNamed(env, Matched(ms, head), h, cursor, k, landing);
    assert [] + Ops(All(ms)) == Ops(All(ms));
    VisibleSplit(env.filter, Ops(All(ms)), h, head, k, |h|);
  }

  lemma WindowNamed(env: Env, st: State, h: seq<Entry>, w: Window, k: nat, v: seq<nat>, i: nat)
    requires StandsAt(env, st, h, v, i) && k < |h| && DistinctCursors(h) && st.cursor == h[k].cursor
    requires st.n == 0 && st.skippedNext == st.skippedPrev == 0
    ensures ReadsAround(env, Positioned(env, st, h, w), h, w, v, i, k)
  {
    PositionedAt(env, st, h, w, v, i);
    AwaitsFrom(env, Positioned(env, st, h, w), h, v, StartRank(w, |v|, i));
  }

  /** The README's example, cursor with skip_prev=2 and limit=2, promises the entry before the cursor and the
      cursor's own. What is read are the two entries before the cursor's. */
  lemma {:induction false} DocumentedWindowDiffers(env: Env, h: seq<Entry>, head: nat, ms: seq<MatchPair>, k: nat,
                                                   landing: nat)
    requires |h| > k && Names(h, head, h[k].cursor, k) && forall i :: 0 <= i < |h| ==> h[i].cursor != ""
    requires env.filter(Ops(All(ms)), h[k]) && |Visible(env.filter, Ops(All(ms)), h, head, k)| >= 2
    ensures var r := ApplyOpts(env, Fresh(head), h, RangeOptions(ms, Window(h[k].cursor, 2, 0, 2, false)), landing);
      var before := Visible(env.filter, Ops(All(ms)), h, head, k);
      && r.Ok?
      && Limited(r.value, Awaiting(env, r.value, h)) == [before[|before| - 2], before[|before| - 1]]
      && k !in Limited(r.value, Awaiting(env, r.value, h))
  {
    var w := Window(h[k].cursor, 2, 0, 2, false);
    var st, before, on := MatchingStart(env, h, head, ms, w, k, landing);
    TwoBefore(env, ms, h, head, k, before, on);
    TwoAwaited(env, st, h, w, before, on, k);
  }

  /** The same for a named entry that matches itself. */
  lemma MatchingStart(env: Env, h: seq<Entry>, head: nat, ms: seq<MatchPair>, w: Window, k: nat, landing: nat)
    returns (st: State, before: seq<nat>, on: seq<nat>)
    requires Names(h, head, w.cursor, k) && forall i :: 0 <= i < |h| ==> h[i].cursor != ""
    requires env.filter(Ops(All(ms)), h[k])
    ensures ApplyOpts(env, Fresh(head), h, RangeOptions(ms, w), landing) == Ok(st)
    ensures before == Visible(env.filter, Ops(All(ms)), h, head, k)
    ensures on == [k] + Visible(env.filter, Ops(All(ms)), h, k + 1, |h|)
    ensures ReadsAround(env, st, h, w, before + on, |before|, k) && st.limit == w.limit && st.useLimit == (w.limit > 0)
  {
    before, on := Visible(env.filter, Ops(All(ms)), h, head, k), Visible(env.filter, Ops(All(ms)), h, k, |h|);
    VisibleFirst(env.filter, Ops(All(ms)), h, k, |h|, h[k]);
    WindowAtCursor(env, h, head, ms, w, k, landing);
    RangeConsistent(env, h, head, ms, w, landing);
    st := ApplyOpts(env, Fresh(head), h, RangeOptions(ms, w), landing).value;
  }

  lemma TwoAwaited(env: Env, st: State, h: seq<Entry>, w: Window, before: seq<nat>, on: seq<nat>, k: nat)
    requires on != [] && |before| >= 2 && w == Window(w.cursor, 2, 0, 2, false) && st.useLimit && st.limit == 2
    requires ReadsAround(env, st, h, w, before + on, |before|, k) && (before + on)[|before| - 2] != k
    requires var all := (before + on)[|before| - 2..];
      && all[..Min(2, |all|)] == [before[|before| - 2], before[|before| - 1]]
      && k !in all[..Min(2, |all|)]
    ensures Limited(st, Awaiting(env, st, h)) == [before[|before| - 2], before[|before| - 1]]
    ensures k !in Limited(st, Awaiting(env, st, h))
  {
    StartsTwoBefore(env, st, h, w, before, on, k);
  }

  lemma StartsTwoBefore(env: Env, st: State, h: seq<Entry>, w: Window, before: seq<nat>, on: seq<nat>, k: nat)
    requires on != [] && |before| >= 2 && w.prev == 2 && w.next == 0 && !w.reverse
    requires ReadsAround(env, st, h, w, before + on, |before|, k) && (before + on)[|before| - 2] != k
    ensures Awaiting(env, st, h) == (before + on)[|before| - 2..]
  {
    HeadTail(before + on, |before| - 2);
  }

  lemma {:induction false} TwoBefore(env: Env, ms: seq<MatchPair>, h: seq<Entry>, head: nat, k: nat, before: seq<nat>,
                                     on: seq<nat>)
    requires k <= |h| && before == Visible(env.filter, Ops(All(ms)), h, head, k) && |before| >= 2
    ensures var all := (before + on)[|before| - 2..];
      && all[..Min(2, |all|)] == [before[|before| - 2], before[|before| - 1]]
      && k !in all[..Min(2, |all|)] && (before + on)[|before| - 2] != k
  {
    VisibleInside(env.filter, Ops(All(ms)), h, head, k, |before| - 1);
    VisibleInside(env.filter, Ops(All(ms)), h, head, k, |before| - 2);
    assert (before + on)[|before| - 2..] == before[|before| - 2..] + on;
  }

  lemma SkipsConsistent(env: Env, st: State, h: seq<Entry>, n: nat)
    requires InBounds(st.journal, |h|) && Consistent(env, st, h)
    ensures Consistent(env, st.(journal := NextSkip(st.journal, h, env.filter, n).0), h)
    ensures Consistent(env, st.(journal := PreviousSkip(st.journal, h, env.filter, n).0), h)
  {
    var j := st.journal;
    var on, back := Ahead(j, h, env.filter), Behind(j, h, env.filter);
    if Min(n, |on|) > 0 {
      VisibleCut(env.filter, j.matches, h, After(j.pos), |h|, Min(n, |on|) - 1);
    }
    if Min(n, |back|) > 0 {
      VisibleCut(env.filter, j.matches, h, j.head, j.pos.at, |back| - Min(n, |back|));
    }
  }

  /** The same reader but for where it stands, at an entry its matches select. */
  ghost predicate Moved(env: Env, st: State, q: State, h: seq<Entry>) {
    && Consistent(env, q, h) && q.pending == st.pending && q.limit == st.limit && q.useLimit == st.useLimit
    && q.journal.matches == st.journal.matches
  }

  lemma NextConsistent(env: Env, st: State, h: seq<Entry>, n: nat)
    requires InBounds(st.journal, |h|) && Consistent(env, st, h)
    ensures Moved(env, st, ApplyOpt(env, st, h, OptionSkipNext(n), 0).value, h)
  {
    SkipsConsistent(env, st, h, n);
  }

  lemma PrevConsistent(env: Env, st: State, h: seq<Entry>, n: nat)
    requires InBounds(st.journal, |h|) && Consistent(env, st, h)
    ensures Moved(env, st, ApplyOpt(env, st, h, OptionSkipPrev(n), 0).value, h)
  {
    if st.cursor == "" {
      SkipsConsistent(env, st.(journal := SeekTail(st.journal, h)), h, n);
    } else {
      SkipsConsistent(env, st, h, n);
    }
  }

  /** A range request leaves the reader fit for every run. */
  lemma {:induction false} RangeConsistent(env: Env, h: seq<Entry>, head: nat, ms: seq<MatchPair>, w: Window,
                                           landing: nat)
    requires head <= |h|
    ensures var r := ApplyOpts(env, Fresh(head), h, RangeOptions(ms, w), landing);
      r.Ok? ==>
        && Consistent(env, r.value, h) && r.value.pending == None
        && r.value.limit == w.limit && r.value.useLimit == (w.limit > 0)
        && r.value.reverse == w.reverse && r.value.journal.matches == Ops(All(ms))
  {
    RangeApplies(env, h, head, ms, w, landing);
    MatchedConsistent(env, ms, h, head);
    var st := Matched(ms, head);
    SeekConsistent(env, st, h, w.cursor, landing);
    var seeked := ApplyOpt(env, st, h, OptionSeekCursor(w.cursor), landing);
    if seeked.Ok? {
      PositionedConsistent(env, seeked.value, h, w);
    }
  }

  lemma MatchedConsistent(env: Env, ms: seq<MatchPair>, h: seq<Entry>, head: nat)
    ensures Consistent(env, Matched(ms, head), h) && Matched(ms, head).journal.matches == Ops(All(ms))
  {
    assert [] + Ops(All(ms)) == Ops(All(ms)) && [All(ms)][..0] == [];
    assert Replay([All(ms)]) == Replay([]) + Ops(All(ms));
  }

  lemma SeekConsistent(env: Env, st: State, h: seq<Entry>, cursor: string, landing: nat)
    requires InBounds(st.journal, |h|) && Consistent(env, st, h)
    ensures var r := ApplyOpt(env, st, h, OptionSeekCursor(cursor), landing);
      r.Ok? ==>
        && Consistent(env, r.value, h) && r.value.pending == st.pending
        && r.value.journal.matches == st.journal.matches
  {
    if cursor != "" {
      SkipsConsistent(env, st.(journal := SeekTo(st.journal, h, cursor, landing)), h, 1);
    }
  }

  lemma PositionedConsistent(env: Env, st: State, h: seq<Entry>, w: Window)
    requires InBounds(st.journal, |h|) && Consistent(env, st, h)
    ensures var q := Positioned(env, st, h, w);
      && Consistent(env, q, h) && q.pending == st.pending
      && q.limit == w.limit && q.useLimit == (w.limit > 0)
      && q.reverse == w.reverse && q.journal.matches == st.journal.matches
  {
    var limited := st.(limit := w.limit, useLimit := w.limit > 0);
    NextConsistent(env, limited, h, w.next);
    PrevConsistent(env, ApplyOpt(env, limited, h, OptionSkipNext(w.next), 0).value, h, w.prev);
  }

  lemma {:induction false} ReadsKeepHistory(env: Env, w: World, events: seq<Event>)
    requires Ready(w) && AllAllowed(env, w, events)
    requires forall i :: 0 <= i < |events| ==> events[i].ReadCall?
    ensures Run(env, w, events).h == w.h
    decreases |events|
  {
    if events != [] {
      ReadsKeepHistory(env, Apply(env, w, events[0]), events[1..]);
    }
  }

  /** Reading a window to its end: a text or JSON request returns the text of the first `limit` entries of its
      window, for every sequence of buffer sizes. */
  lemma {:induction false} RangeOutput(env: Env, h: seq<Entry>, head: nat, ms: seq<MatchPair>, w: Window, landing: nat,
                    st0: State, events: seq<Event>, now: int, bufLen: nat)
    requires head <= |h| && ApplyOpts(env, Fresh(head), h, RangeOptions(ms, w), landing) == Ok(st0)
    requires !env.format.EventStream?
    requires forall i :: 0 <= i < |events| ==> events[i].ReadCall?
    requires AllAllowed(env, Begin(st0, h), events)
    requires var end := Run(env, Begin(st0, h), events); ReadFrom(env, end.st, end.h, now, now, bufLen).2 == None
    ensures var all := Awaiting(env, st0, h);
      Run(env, Begin(st0, h), events).out
      == EntriesText(env, h, if w.limit > 0 then all[..Min(w.limit, |all|)] else all)
  {
    RangeConsistent(env, h, head, ms, w, landing);
    OutputAtEof(env, st0, h, events, now, now, bufLen);
    ReadsKeepHistory(env, Begin(st0, h), events);
    var text := EntriesText(env, h, Limited(st0, Awaiting(env, st0, h)));
    assert "" + text == text;
  }
}
