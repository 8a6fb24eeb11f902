/** What the match options select (journal/reader/config.go), with match lists evaluated as sd_journal_add_match and
    sd_journal_add_disjunction describe: a disjunction ends a group, groups are alternatives, the fields of a group must
    all match, and a field named more than once matches with one of its values. */
module Matches {
  import opened Prelude
  import opened Journal
  import opened JournalReader
  import opened JournalWindows

  /** A filter on several fields adds one match for each pair, field=value, and nothing else. */
  lemma {:induction false} AllAdds(ms: seq<MatchPair>)
    ensures |Ops(All(ms))| == |ms|
    ensures forall i :: 0 <= i < |ms| ==> Ops(All(ms))[i] == AddMatch(ms[i].field + "=" + ms[i].value)
  {
    if ms != [] {
      AllAdds(ms[1..]);
    }
  }

  /** Alternatives have a disjunction after each match. */
  lemma {:induction false} AnyAdds(ms: seq<MatchPair>)
    ensures |Ops(Any(ms))| == 2 * |ms|
    ensures forall i :: 0 <= i < |ms| ==>
      Ops(Any(ms))[2 * i] == AddMatch(ms[i].field + "=" + ms[i].value) && Ops(Any(ms))[2 * i + 1] == AddDisjunction
  {
    if ms != [] {
      AnyAdds(ms[1..]);
      var ops, rest := Ops(Any(ms)), Ops(Any(ms[1..]));
      assert ops == [AddMatch(Show(ms[0])), AddDisjunction] + rest;
      forall i | 0 <= i < |ms|
        ensures ops[2 * i] == AddMatch(ms[i].field + "=" + ms[i].value) && ops[2 * i + 1] == AddDisjunction
      {
        if i > 0 {
          assert ops[2 * i] == rest[2 * (i - 1)] && ops[2 * i + 1] == rest[2 * (i - 1) + 1];
        }
      }
    }
  }

  /** The texts between disjunctions. */
  function Groups(ops: seq<MatchOp>): (groups: seq<seq<string>>)
    ensures |groups| >= 1
  {
    if ops == [] then [[]]
    else
      var rest := Groups(ops[1..]);
      match ops[0]
      case AddMatch(text) => [[text] + rest[0]] + rest[1..]
      case AddDisjunction => [[]] + rest
  }

  function NameLength(text: string): (n: nat)
    ensures n <= |text| && '=' !in text[..n] && (n < |text| ==> text[n] == '=')
  {
    if text == "" || text[0] == '=' then 0 else 1 + NameLength(text[1..])
  }

  /** The field a match is about. */
  function FieldOf(text: string): string {
    text[..NameLength(text)]
  }

  predicate Has(e: Entry, text: string) {
    exists f :: f in e.fields && text == f + "=" + e.fields[f]
  }

  /** A field has one of the values a group names for it. */
  predicate OneHolds(group: seq<string>, field: string, e: Entry) {
    exists j :: 0 <= j < |group| && FieldOf(group[j]) == field && Has(e, group[j])
  }

  /** Each field of a group has. */
  predicate Holds(group: seq<string>, e: Entry) {
    forall i :: 0 <= i < |group| ==> OneHolds(group, FieldOf(group[i]), e)
  }

  /** A group without matches is none; without any group every entry is selected. */
  predicate Selects(ops: seq<MatchOp>, e: Entry) {
    var groups := Groups(ops);
    || (forall i :: 0 <= i < |groups| ==> groups[i] == [])
    || exists i :: 0 <= i < |groups| && groups[i] != [] && Holds(groups[i], e)
  }

  /** Field names have no '='. */
  ghost predicate Named(ms: seq<MatchPair>) {
    forall i :: 0 <= i < |ms| ==> '=' !in ms[i].field
  }

  ghost predicate NamesFields(e: Entry) {
    forall f :: f in e.fields ==> '=' !in f
  }

  predicate HasPair(e: Entry, m: MatchPair) {
    m.field in e.fields && e.fields[m.field] == m.value
  }

  lemma {:induction false} NameLengthOf(field: string, value: string)
    requires '=' !in field
    ensures NameLength(field + "=" + value) == |field|
  {
    var text := field + "=" + value;
    if field != "" {
      assert text[0] == field[0] && text[1..] == field[1..] + "=" + value;
      NameLengthOf(field[1..], value);
    }
  }

  lemma PairText(field: string, value: string)
    requires '=' !in field
    ensures FieldOf(field + "=" + value) == field && (field + "=" + value)[|field| + 1..] == value
  {
    NameLengthOf(field, value);
  }

  lemma PairHas(e: Entry, m: MatchPair)
    requires NamesFields(e) && '=' !in m.field
    ensures Has(e, Show(m)) <==> HasPair(e, m)
  {
    PairText(m.field, m.value);
    forall f | f in e.fields && Show(m) == f + "=" + e.fields[f] ensures f == m.field {
      PairText(f, e.fields[f]);
    }
  }

  /** The texts of some pairs. */
  function Texts(ms: seq<MatchPair>): seq<string> {
    seq(|ms|, i requires 0 <= i < |ms| => ms[i].field + "=" + ms[i].value)
  }

  lemma {:induction false} GroupsOfAll(ms: seq<MatchPair>)
    ensures Groups(Ops(All(ms))) == [Texts(ms)]
  {
    if ms == [] {
      assert Texts(ms) == [];
    } else {
      GroupsOfAll(ms[1..]);
      assert Ops(All(ms))[1..] == Ops(All(ms[1..]));
      assert Texts(ms) == [Show(ms[0])] + Texts(ms[1..]);
    }
  }

  /** Alternatives are groups of one, whatever comes after them. */
  lemma {:induction false} GroupsOfAny(ms: seq<MatchPair>, more: seq<MatchOp>)
    ensures |Groups(Ops(Any(ms)) + more)| == |ms| + |Groups(more)|
    ensures forall i :: 0 <= i < |ms| ==> Groups(Ops(Any(ms)) + more)[i] == [ms[i].field + "=" + ms[i].value]
    ensures Groups(Ops(Any(ms)) + more)[|ms|..] == Groups(more)
  {
    var ops := Ops(Any(ms)) + more;
    if ms == [] {
      assert ops == more;
    } else {
      var text, rest := AddMatch(Show(ms[0])), Ops(Any(ms[1..])) + more;
      GroupsOfAny(ms[1..], more);
      assert ops == [text] + ([AddDisjunction] + rest);
      GroupsFirst(Show(ms[0]), rest, ops);
    }
  }

  lemma {:induction false} GroupsFirst(text: string, rest: seq<MatchOp>, ops: seq<MatchOp>)
    requires ops == [AddMatch(text)] + ([AddDisjunction] + rest)
    ensures Groups(ops) == [[text]] + Groups(rest)
  {
    var tail := [AddDisjunction] + rest;
    assert ops[1..] == tail && tail[1..] == rest;
    assert Groups(tail) == [[]] + Groups(rest);
    assert [text] + [] == [text] && Groups(tail)[1..] == Groups(rest);
  }

  /** A field has one of the values asked for. */
  ghost predicate HasField(e: Entry, ms: seq<MatchPair>, field: string) {
    exists j :: 0 <= j < |ms| && ms[j].field == field && HasPair(e, ms[j])
  }

  /** Each field asked for has. */
  ghost predicate HasAll(e: Entry, ms: seq<MatchPair>) {
    forall i :: 0 <= i < |ms| ==> HasField(e, ms, ms[i].field)
  }

  ghost predicate HasSome(e: Entry, ms: seq<MatchPair>) {
    exists i :: 0 <= i < |ms| && HasPair(e, ms[i])
  }

  ghost predicate DistinctFields(ms: seq<MatchPair>) {
    forall i, j :: 0 <= i < j < |ms| ==> ms[i].field != ms[j].field
  }

  /** With a field named once, that is all pairs. */
  lemma HasAllDistinct(e: Entry, ms: seq<MatchPair>)
    requires DistinctFields(ms)
    ensures HasAll(e, ms) <==> forall i :: 0 <= i < |ms| ==> HasPair(e, ms[i])
  {
    if HasAll(e, ms) {
      forall i | 0 <= i < |ms| ensures HasPair(e, ms[i]) {
        assert HasField(e, ms, ms[i].field);
        var j :| 0 <= j < |ms| && ms[j].field == ms[i].field && HasPair(e, ms[j]);
        assert !(i < j) && !(j < i);
      }
    }
  }

  lemma HoldsTexts(e: Entry, ms: seq<MatchPair>)
    requires NamesFields(e) && Named(ms)
    ensures Holds(Texts(ms), e) <==> HasAll(e, ms)
  {
    var texts := Texts(ms);
    forall i | 0 <= i < |ms|
      ensures FieldOf(texts[i]) == ms[i].field && (Has(e, texts[i]) <==> HasPair(e, ms[i]))
    {
      PairText(ms[i].field, ms[i].value);
      PairHas(e, ms[i]);
    }
    HoldsAll(e, ms, texts);
  }

  lemma HoldsAll(e: Entry, ms: seq<MatchPair>, texts: seq<string>)
    requires |texts| == |ms|
    requires forall i :: 0 <= i < |ms| ==> FieldOf(texts[i]) == ms[i].field && (Has(e, texts[i]) <==> HasPair(e, ms[i]))
    ensures Holds(texts, e) <==> HasAll(e, ms)
  {
    forall i | 0 <= i < |ms| ensures OneHolds(texts, ms[i].field, e) <==> HasField(e, ms, ms[i].field) {
      HoldsField(e, ms, texts, ms[i].field);
    }
    assert Holds(texts, e) <==> forall i :: 0 <= i < |ms| ==> OneHolds(texts, ms[i].field, e);
  }

  lemma HoldsField(e: Entry, ms: seq<MatchPair>, texts: seq<string>, field: string)
    requires |texts| == |ms|
    requires forall i :: 0 <= i < |ms| ==> FieldOf(texts[i]) == ms[i].field && (Has(e, texts[i]) <==> HasPair(e, ms[i]))
    ensures OneHolds(texts, field, e) <==> HasField(e, ms, field)
  {
    if OneHolds(texts, field, e) {
      var j :| 0 <= j < |texts| && FieldOf(texts[j]) == field && Has(e, texts[j]);
      assert ms[j].field == field && HasPair(e, ms[j]);
    }
    if HasField(e, ms, field) {
      var j :| 0 <= j < |ms| && ms[j].field == field && HasPair(e, ms[j]);
      assert FieldOf(texts[j]) == field && Has(e, texts[j]);
    }
  }

  /** OptionMatch selects the entries that have each field with one of the values named for it. */
  lemma MatchSelects(ms: seq<MatchPair>, e: Entry)
    requires NamesFields(e) && Named(ms)
    ensures Selects(Ops(All(ms)), e) <==> HasAll(e, ms)
  {
    GroupsOfAll(ms);
    HoldsTexts(e, ms);
    assert Groups(Ops(All(ms)))[0] == Texts(ms);
  }

  /** OptionMatchOR selects the entries that have one of the pairs, or all entries when there is none. */
  lemma MatchOrSelects(ms: seq<MatchPair>, e: Entry)
    requires NamesFields(e) && Named(ms)
    ensures Selects(Ops(Any(ms)), e) <==> ms == [] || HasSome(e, ms)
  {
    assert Ops(Any(ms)) + [] == Ops(Any(ms));
    assert [] == Ops(All([])) && Texts([]) == [];
    ComponentSelects(ms, [], e);
  }

  /** A group of one. */
  lemma HoldsOne(e: Entry, m: MatchPair)
    requires NamesFields(e) && '=' !in m.field
    ensures Holds([m.field + "=" + m.value], e) <==> HasPair(e, m)
  {
    PairHas(e, m);
    var group := [Show(m)];
    assert OneHolds(group, FieldOf(group[0]), e) <==> Has(e, group[0]);
    assert Holds(group, e) <==> OneHolds(group, FieldOf(group[0]), e);
  }

  /** The two together, as a request for a component with filters applies them (api/v2/handlers.go): the filters do not
      narrow the component down but are one more alternative. */
  lemma ComponentSelects(units: seq<MatchPair>, filters: seq<MatchPair>, e: Entry)
    requires NamesFields(e) && Named(units) && Named(filters)
    ensures Selects(Ops(Any(units)) + Ops(All(filters)), e)
      <==> (units == [] && filters == []) || HasSome(e, units) || (filters != [] && HasAll(e, filters))
  {
    var ops := Ops(Any(units)) + Ops(All(filters));
    GroupsOfAny(units, Ops(All(filters)));
    GroupsOfAll(filters);
    HoldsTexts(e, filters);
    var groups := Groups(ops);
    assert groups[|units|..][0] == Texts(filters);
    forall i | 0 <= i < |units| ensures groups[i] != [] && (Holds(groups[i], e) <==> HasPair(e, units[i])) {
      HoldsOne(e, units[i]);
    }
    Alternatives(units, filters, e, groups);
  }

  lemma Alternatives(units: seq<MatchPair>, filters: seq<MatchPair>, e: Entry, groups: seq<seq<string>>)
    requires |groups| == |units| + 1 && (groups[|units|] == [] <==> filters == [])
    requires Holds(groups[|units|], e) <==> HasAll(e, filters)
    requires forall i :: 0 <= i < |units| ==> groups[i] != [] && (Holds(groups[i], e) <==> HasPair(e, units[i]))
    ensures (forall i :: 0 <= i < |groups| ==> groups[i] == []) <==> units == [] && filters == []
    ensures (exists i :: 0 <= i < |groups| && groups[i] != [] && Holds(groups[i], e))
      <==> HasSome(e, units) || (filters != [] && HasAll(e, filters))
  {
    if units != [] {
      assert groups[0] != [];
    }
    if i :| 0 <= i < |units| && HasPair(e, units[i]) {
      assert groups[i] != [] && Holds(groups[i], e);
    }
    if i :| 0 <= i < |groups| && groups[i] != [] && Holds(groups[i], e) {
      if i < |units| {
        assert HasPair(e, units[i]);
      }
    }
  }

  /** Whatever the options and their order, the recorded match functions build the match list of the handle again. */
  lemma {:induction false} OptionsReplay(env: Env, st: State, h: seq<Entry>, opts: seq<Opt>, landing: nat)
    requires InBounds(st.journal, |h|) && st.journal.matches == Replay(st.matchFns)
    ensures var r := ApplyOpts(env, st, h, opts, landing);
      r.Ok? ==> r.value.journal.matches == Replay(r.value.matchFns)
    decreases |opts|
  {
    if opts != [] {
      var r := ApplyOpt(env, st, h, opts[0], landing);
      if r.Ok? {
        OptionReplays(env, st, h, opts[0], landing);
        OptionsReplay(env, r.value, h, opts[1..], landing);
      }
    }
  }

  lemma OptionReplays(env: Env, st: State, h: seq<Entry>, opt: Opt, landing: nat)
    requires InBounds(st.journal, |h|) && st.journal.matches == Replay(st.matchFns)
    ensures var r := ApplyOpt(env, st, h, opt, landing);
      r.Ok? ==> r.value.journal.matches == Replay(r.value.matchFns)
  {
    if opt.OptionMatch? {
      ReplaySnoc(st.matchFns, All(opt.ms));
    } else if opt.OptionMatchOR? {
      ReplaySnoc(st.matchFns, Any(opt.ms));
    } else {
      OthersMatchNothing(env, st, h, opt, landing);
    }
  }

  lemma OthersMatchNothing(env: Env, st: State, h: seq<Entry>, opt: Opt, landing: nat)
    requires InBounds(st.journal, |h|) && !opt.OptionMatch? && !opt.OptionMatchOR?
    ensures var r := ApplyOpt(env, st, h, opt, landing);
      r.Ok? ==> r.value.journal.matches == st.journal.matches && r.value.matchFns == st.matchFns
  {
  }

  lemma {:induction false} ReplaySnoc(fns: seq<MatchFn>, fn: MatchFn)
    ensures Replay(fns + [fn]) == Replay(fns) + Ops(fn)
  {
    assert (fns + [fn])[..|fns|] == fns;
  }

  /** So a request with filters on distinct fields has exactly the entries with all of them in its window. */
  lemma MatchingIff(env: Env, ms: seq<MatchPair>, h: seq<Entry>, head: nat, k: nat)
    requires forall ops, e :: env.filter(ops, e) <==> Selects(ops, e)
    requires Named(ms) && DistinctFields(ms) && (forall i :: 0 <= i < |h| ==> NamesFields(h[i]))
    ensures k in Matching(env, ms, h, head)
      <==> head <= k < |h| && forall i :: 0 <= i < |ms| ==> HasPair(h[k], ms[i])
  {
    VisibleIff(env.filter, Ops(All(ms)), h, head, |h|, k);
    if k < |h| {
      MatchSelects(ms, h[k]);
      HasAllDistinct(h[k], ms);
    }
  }

  lemma {:induction false} VisibleIff(filter: Filter, ops: seq<MatchOp>, h: seq<Entry>, lo: nat, hi: nat, k: nat)
    requires hi <= |h|
    ensures k in Visible(filter, ops, h, lo, hi) <==> lo <= k < hi && filter(ops, h[k])
    decreases hi - lo
  {
    if lo < hi {
      VisibleIff(filter, ops, h, lo + 1, hi, k);
    }
  }
}
