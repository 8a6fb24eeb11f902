/** Reading back what a range request returns, in the text and JSON formats (journal/reader/formatters.go). */
module JournalText {
  import opened Prelude
  import opened Text
  import opened Journal
  import opened JournalReader
  import opened JournalRuns
  import opened JournalWindows

  /** Some lines, each with its end. */
  function Terminated(lines: seq<string>): string {
    if lines == [] then "" else lines[0] + "\n" + Terminated(lines[1..])
  }

  lemma {:induction false} TerminatedSnoc(lines: seq<string>, line: string)
    ensures Terminated(lines + [line]) == Terminated(lines) + (line + "\n")
  {
    var all := lines + [line];
    if lines == [] {
      assert all == [line] && [line][1..] == [];
      assert line + "\n" + "" == line + "\n" == "" + (line + "\n");
    } else {
      assert all[0] == lines[0] && all[1..] == lines[1..] + [line];
      TerminatedSnoc(lines[1..], line);
      Regroup(lines[0] + "\n", Terminated(lines[1..]), line + "\n");
    }
  }

  lemma {:induction false} TerminatedJoins(lines: seq<string>)
    ensures Join(lines + [""], NL) == Terminated(lines)
  {
    var all := lines + [""];
    if lines != [] {
      assert all[0] == lines[0] && all[1..] == lines[1..] + [""];
      TerminatedJoins(lines[1..]);
    }
  }

  /** Splitting gives the lines back, and nothing after the last newline. */
  lemma {:induction false} TerminatedSplits(lines: seq<string>)
    requires SepFree(lines, NL)
    ensures Split(Terminated(lines), NL) == lines + [""]
  {
    TerminatedJoins(lines);
    SplitJoin(lines + [""], NL);
  }

  /** The entries of a window that have a message. */
  function WithMessage(h: seq<Entry>, log: seq<nat>): seq<nat> {
    if log == [] then []
    else
      var last := log[|log| - 1];
      WithMessage(h, log[..|log| - 1]) + if last < |h| && "MESSAGE" in h[last].fields then [last] else []
  }

  /** What stamps and messages must be for a line to hold one of each. */
  ghost predicate OneLineText(stamp: Entry -> string, size: nat, h: seq<Entry>) {
    forall i :: 0 <= i < |h| && "MESSAGE" in h[i].fields ==>
      |stamp(h[i])| == size && NL !in stamp(h[i]) && NL !in h[i].fields["MESSAGE"]
  }

  /** Line i of the output is entry shown[i]: its stamp, a colon and a space, and its message. */
  ghost predicate ShowsEntries(stamp: Entry -> string, size: nat, h: seq<Entry>, shown: seq<nat>, lines: seq<string>) {
    && |lines| == |shown|
    && forall i :: 0 <= i < |shown| ==> shown[i] < |h| && ShowsEntry(stamp, size, h[shown[i]], lines[i])
  }

  ghost predicate ShowsEntry(stamp: Entry -> string, size: nat, e: Entry, line: string) {
    && "MESSAGE" in e.fields && |line| >= size + 2
    && line[..size] == stamp(e) && line[size..size + 2] == ": " && line[size + 2..] == e.fields["MESSAGE"]
  }

  lemma LineShows(stamp: Entry -> string, size: nat, e: Entry, message: string, line: string)
    requires "MESSAGE" in e.fields && e.fields["MESSAGE"] == message && |stamp(e)| == size
    requires NL !in stamp(e) && NL !in message && line == stamp(e) + ": " + message
    ensures ShowsEntry(stamp, size, e, line) && NL !in line
  {
    forall i | 0 <= i < |line| ensures line[i] != NL {
      if i < size {
        assert line[i] == stamp(e)[i];
      } else if i >= size + 2 {
        assert line[i] == message[i - size - 2];
      }
    }
  }

  /** The text of some entries is one such line for each that has a message. */
  lemma {:induction false} TextOfEntries(env: Env, size: nat, h: seq<Entry>, log: seq<nat>) returns (lines: seq<string>)
    requires env.format.PlainText? && OneLineText(env.format.stamp, size, h)
    ensures EntriesText(env, h, log) == Terminated(lines) && SepFree(lines, NL)
    ensures ShowsEntries(env.format.stamp, size, h, WithMessage(h, log), lines)
    decreases |log|
  {
    lines := [];
    if log != [] {
      var last := log[|log| - 1];
      lines := TextOfEntries(env, size, h, log[..|log| - 1]);
      if last < |h| && "MESSAGE" in h[last].fields {
        var line := env.format.stamp(h[last]) + ": " + h[last].fields["MESSAGE"];
        LineShows(env.format.stamp, size, h[last], h[last].fields["MESSAGE"], line);
        TerminatedSnoc(lines, line);
        lines := lines + [line];
      } else {
        assert EntriesText(env, h, log[..|log| - 1]) + "" == EntriesText(env, h, log[..|log| - 1]);
      }
    }
  }

  /** Line i of the output is entry log[i], marshalled. */
  ghost predicate MarshalsEntries(marshal: Entry -> string, h: seq<Entry>, log: seq<nat>, lines: seq<string>) {
    |lines| == |log| && forall i :: 0 <= i < |log| ==> log[i] < |h| && lines[i] == marshal(h[log[i]])
  }

  ghost predicate Inside(h: seq<Entry>, log: seq<nat>) {
    forall i :: 0 <= i < |log| ==> log[i] < |h|
  }

  lemma {:induction false} JsonOfEntries(env: Env, h: seq<Entry>, log: seq<nat>) returns (lines: seq<string>)
    requires env.format.Json? && (forall i :: 0 <= i < |h| ==> NL !in env.format.marshal(h[i]))
    requires Inside(h, log)
    ensures EntriesText(env, h, log) == Terminated(lines) && SepFree(lines, NL)
    ensures MarshalsEntries(env.format.marshal, h, log, lines)
    decreases |log|
  {
    lines := [];
    if log != [] {
      var last := log[|log| - 1];
      lines := JsonOfEntries(env, h, log[..|log| - 1]);
      TerminatedSnoc(lines, env.format.marshal(h[last]));
      lines := lines + [env.format.marshal(h[last])];
    }
  }

  /** The window of a request, cut off at its limit. */
  function Taken(env: Env, st: State, h: seq<Entry>, w: Window): seq<nat>
    requires InBounds(st.journal, |h|)
  {
    var all := Awaiting(env, st, h);
    if w.limit > 0 then all[..Min(w.limit, |all|)] else all
  }

  /** Reading a text response back: with stamps of one size and no line ends in stamps and messages, its lines are one
      for each entry of the window that has a message, in order, and behind the stamp and ": " stands that message;
      nothing comes after the last line end. */
  lemma TextReadsBack(env: Env, size: nat, h: seq<Entry>, head: nat, ms: seq<MatchPair>, w: Window, landing: nat,
                      st0: State, events: seq<Event>, now: int, bufLen: nat)
    returns (lines: seq<string>)
    requires head <= |h| && ApplyOpts(env, Fresh(head), h, RangeOptions(ms, w), landing) == Ok(st0)
    requires env.format.PlainText? && OneLineText(env.format.stamp, size, h)
    requires forall i :: 0 <= i < |events| ==> events[i].ReadCall?
    requires AllAllowed(env, Begin(st0, h), events)
    requires var end := Run(env, Begin(st0, h), events); ReadFrom(env, end.st, end.h, now, now, bufLen).2 == None
    ensures Split(Run(env, Begin(st0, h), events).out, NL) == lines + [""]
    ensures ShowsEntries(env.format.stamp, size, h, WithMessage(h, Taken(env, st0, h, w)), lines)
  {
    RangeOutput(env, h, head, ms, w, landing, st0, events, now, bufLen);
    lines := TextOfEntries(env, size, h, Taken(env, st0, h, w));
    TerminatedSplits(lines);
  }

  /** And a JSON response: its lines are the marshalled entries of the window. */
  lemma JsonReadsBack(env: Env, h: seq<Entry>, head: nat, ms: seq<MatchPair>, w: Window, landing: nat,
                      st0: State, events: seq<Event>, now: int, bufLen: nat)
    returns (lines: seq<string>)
    requires head <= |h| && ApplyOpts(env, Fresh(head), h, RangeOptions(ms, w), landing) == Ok(st0)
    requires env.format.Json? && (forall i :: 0 <= i < |h| ==> NL !in env.format.marshal(h[i]))
    requires forall i :: 0 <= i < |events| ==> events[i].ReadCall?
    requires AllAllowed(env, Begin(st0, h), events)
    requires var end := Run(env, Begin(st0, h), events); ReadFrom(env, end.st, end.h, now, now, bufLen).2 == None
    ensures Split(Run(env, Begin(st0, h), events).out, NL) == lines + [""]
    ensures MarshalsEntries(env.format.marshal, h, Taken(env, st0, h, w), lines)
  {
    RangeOutput(env, h, head, ms, w, landing, st0, events, now, bufLen);
    AwaitedInside(env, st0, h);
    assert Inside(h, Taken(env, st0, h, w));
    lines := JsonOfEntries(env, h, Taken(env, st0, h, w));
    TerminatedSplits(lines);
  }

  /** What is awaited is in the history. */
  lemma AwaitedInside(env: Env, st: State, h: seq<Entry>)
    requires InBounds(st.journal, |h|)
    ensures Inside(h, Awaiting(env, st, h))
  {
    var j := st.journal;
    var back, on := Behind(j, h, env.filter), Ahead(j, h, env.filter);
    forall i | 0 <= i < |back| ensures back[i] < |h| {
      VisibleInside(env.filter, j.matches, h, j.head, j.pos.at, i);
    }
    forall i | 0 <= i < |on| ensures on[i] < |h| {
      VisibleInside(env.filter, j.matches, h, After(j.pos), |h|, i);
    }
  }
}
